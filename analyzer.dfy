/** The PulseTree analyzer: per event it filters on the bunch crossing, then
    decodes every selected frame into its branch buffers and either writes
    one row per frame (raw mode) or folds the frame into the averaging table
    (average mode), which is drained at the end of the job. */
module Analyzer {
  import opened Samples
  import opened Output
  import opened Accumulation
  import opened Stream

  /** The analyzer's configuration parameters. */
  datatype Config = Config(nPedestalSamples: nat, doAverage: bool, splitByLumi: bool,
                           minAmplitudeForAverage: real, processEB: bool, processEE: bool,
                           filterBx: seq<nat>, invertBxSelection: bool)

  /** The values each parameter takes when the configuration leaves it out. */
  const Defaults: Config := Config(3, false, false, -9000000000.0, true, true, [], false)

  /** The default configuration is one the constructor accepts: a
      three-sample pedestal, raw mode without lumi splitting, both
      collections, and no bunch-crossing filter. */
  lemma DefaultsAccepted()
    ensures 0 < Defaults.nPedestalSamples <= FrameSize && Defaults.nPedestalSamples == 3
    ensures !Defaults.doAverage && !(Defaults.splitByLumi && Defaults.doAverage)
    ensures Defaults.processEB && Defaults.processEE && |Defaults.filterBx| == 0
  {
  }

  // ---------------------------------------------------------------- analyzer

  class PulseTree {
    // configuration
    const nPedestalSamples: nat
    const doAverage: bool
    const splitLumis: bool
    const minAmplitude: real
    const doEB: bool
    const doEE: bool
    const bxToKeep: seq<nat>
    const bxInvertSelection: bool
    const doFilterBx: bool

    // branch buffers
    var tRun: nat
    var tLumi: nat
    var tBx: nat
    var tId: nat
    const tPulse: array<real>
    const tGain: array<real>
    var tPedestal: real
    var tPedestalVar: real
    var tGainmask: bv16
    var tNevt: nat

    // the averaging table, five parallel vectors
    var summedIndex: seq<Key>
    var summedPulses: seq<seq<real>>
    var summedGains: seq<seq<real>>
    var summedPedestal: seq<(real, real)>
    var summedCount: seq<int>

    var oldLumi: nat

    /** The lumis already flushed, consulted only for a console warning;
        nothing is ever added to it. */
    const seenLumis: seq<nat>

    /** The rows written to the output tree so far. */
    var outTree: seq<Row>

    /** The settings that decide what one frame does. */
    function Mode(): Settings {
      Settings(doAverage, nPedestalSamples, minAmplitude)
    }

    /** The five vectors as one table value. */
    function Table(): Summed
      reads this`summedIndex, this`summedPulses, this`summedGains, this`summedPedestal, this`summedCount
    {
      Summed(summedIndex, summedPulses, summedGains, summedPedestal, summedCount)
    }

    /** The table and the rows written so far. */
    function State(): Sink
      reads this`summedIndex, this`summedPulses, this`summedGains, this`summedPedestal, this`summedCount, this`outTree
    {
      Sink(Table(), outTree)
    }

    /** The row the branch buffers hold. */
    function CurrentRow(): Row
      reads this`tRun, this`tLumi, this`tBx, this`tId, tPulse, tGain,
            this`tPedestal, this`tPedestalVar, this`tGainmask, this`tNevt
    {
      Row(tRun, tLumi, tBx, tId, tPulse[..], tGain[..], tPedestal, tPedestalVar, tGainmask, tNevt)
    }

    /** The two sample buffers hold ten values each and are distinct, and
        the pedestal window fits in a frame. */
    predicate Buffers() {
      tPulse.Length == FrameSize && tGain.Length == FrameSize && tPulse != tGain &&
      0 < nPedestalSamples <= FrameSize
    }

    /** The object invariant: the buffers, the configuration's implications
        and a well-formed table, which stays empty in raw mode. */
    ghost predicate Valid()
      reads this`summedIndex, this`summedPulses, this`summedGains, this`summedPedestal, this`summedCount
    {
      Buffers() &&
      (splitLumis ==> doAverage) &&
      doFilterBx == (|bxToKeep| != 0) &&
      WellFormed(Table()) &&
      (!doAverage ==> Table() == Empty)
    }

    /** No lumi has been remembered yet: old_lumi still holds its initial 0. */
    predicate LumiIdle()
      reads this`oldLumi
    {
      oldLumi == 0
    }

    /** Whether an event with this bunch crossing is processed. */
    predicate Passes(bx: nat) {
      !doFilterBx || if bx in bxToKeep then !bxInvertSelection else bxInvertSelection
    }

    /** With an empty list every event passes; otherwise an event passes
        exactly when being listed and inverting disagree. */
    lemma PassesRule(bx: nat)
      requires doFilterBx == (|bxToKeep| != 0)
      ensures |bxToKeep| == 0 ==> Passes(bx)
      ensures |bxToKeep| != 0 ==> (Passes(bx) <==> (bx in bxToKeep) != bxInvertSelection)
    {
    }

    /** The frames an event contributes: barrel first, then endcap. */
    function Selected(eb: seq<Frame>, ee: seq<Frame>): (fs: seq<Frame>)
      ensures AllWellSized(eb) && AllWellSized(ee) ==> AllWellSized(fs)
    {
      (if doEB then eb else []) + (if doEE then ee else [])
    }

    constructor (c: Config)
      requires 0 < c.nPedestalSamples <= FrameSize
      ensures Valid() && LumiIdle()
      ensures nPedestalSamples == c.nPedestalSamples && doAverage == c.doAverage
      ensures splitLumis == (c.splitByLumi && c.doAverage)
      ensures minAmplitude == c.minAmplitudeForAverage
      ensures doEB == c.processEB && doEE == c.processEE
      ensures bxToKeep == c.filterBx && bxInvertSelection == c.invertBxSelection
      ensures doFilterBx == (|c.filterBx| != 0)
      ensures Table() == Empty && outTree == [] && seenLumis == []
      ensures fresh(tPulse) && fresh(tGain)
    {
      nPedestalSamples := c.nPedestalSamples;
      doAverage := c.doAverage;
      splitLumis := c.splitByLumi && c.doAverage;
      minAmplitude := c.minAmplitudeForAverage;
      oldLumi := 0;
      seenLumis := [];
      doEB := c.processEB;
      doEE := c.processEE;
      bxToKeep := c.filterBx;
      bxInvertSelection := c.invertBxSelection;
      doFilterBx := |c.filterBx| != 0;
      tPulse := new real[FrameSize](_ => 0.0);
      tGain := new real[FrameSize](_ => 0.0);
      summedIndex, summedPulses, summedGains, summedPedestal, summedCount := [], [], [], [], [];
      outTree := [];
    }

    /** The bunch-crossing rule: a listed crossing is kept unless the
        selection is inverted, an unlisted one only if it is. */
    method FilterBx(bx: nat) returns (keep: bool)
      ensures bx in bxToKeep ==> keep == !bxInvertSelection
      ensures bx !in bxToKeep ==> keep == bxInvertSelection
    {
      for i := 0 to |bxToKeep|
        invariant bx !in bxToKeep[..i]
      {
        if bx == bxToKeep[i] {
          return !bxInvertSelection;
        }
      }
      assert bxToKeep[..|bxToKeep|] == bxToKeep;
      return bxInvertSelection;
    }

    /** The decoded frame the branch buffers hold. */
    function Buffered(): Decoded
      reads this`tId, tPulse, tGain, this`tGainmask, this`tPedestal
    {
      Decoded(tId, tPulse[..], tGain[..], tGainmask, tPedestal)
    }

    /** The sample loop of FillDigi: id, amplitudes, gains and gain mask. */
    method DecodeSamples(f: Frame)
      requires Buffers() && WellSized(f)
      modifies this`tId, this`tGainmask, tPulse, tGain
      ensures tId == f.id && tPulse[..] == Pulses(f.words) && tGain[..] == Gains(f.words)
      ensures tGainmask == GainMask(f.words)
    {
      tId := f.id;
      tGainmask := 0;
      for j := 0 to FrameSize
        modifies tPulse, tGain, this`tGainmask
        invariant forall i | 0 <= i < j :: tPulse[i] == Pulses(f.words)[i]
        invariant forall i | 0 <= i < j :: tGain[i] == Gains(f.words)[i]
        invariant tGainmask == GainMask(f.words[..j])
      {
        tPulse[j] := Amplitude(f.words[j]) as real;
        tGain[j] := GainId(f.words[j]) as real;
        tGainmask := tGainmask | GainBit(tGain[j].Floor);
        assert f.words[..j + 1][..j] == f.words[..j];
      }
      assert f.words[..FrameSize] == f.words;
      assert tPulse[..] == Pulses(f.words);
      assert tGain[..] == Gains(f.words);
    }

    /** The pedestal loop of FillDigi: the mean of the first
        nPedestalSamples amplitudes. */
    method ComputePedestal()
      requires Buffers()
      modifies this`tPedestal
      ensures tPedestal == Mean(tPulse[..], nPedestalSamples)
    {
      tPedestal := 0.0;
      for j := 0 to nPedestalSamples
        invariant tPedestal == Sum(tPulse[..j])
      {
        tPedestal := tPedestal + tPulse[j];
        assert tPulse[..j + 1][..j] == tPulse[..j];
      }
      assert tPulse[..][..nPedestalSamples] == tPulse[..nPedestalSamples];
      tPedestal := tPedestal / nPedestalSamples as real;
    }

    /** The decoding half of FillDigi: the id, the ten amplitudes and gains,
        the gain mask and the pedestal go to the branch buffers, and the
        pedestal spread and event count are zeroed. */
    method DecodeIntoBuffers(f: Frame)
      requires Buffers() && WellSized(f)
      modifies this`tId, this`tGainmask, tPulse, tGain, this`tPedestal, this`tPedestalVar, this`tNevt
      ensures Buffered() == Decode(f, nPedestalSamples)
      ensures tPedestalVar == 0.0 && tNevt == 0
    {
      DecodeSamples(f);
      ComputePedestal();
      tPedestalVar := 0.0;
      tNevt := 0;
    }

    /** The additions of the averaging step: the buffered frame's pulse and
        gain values go into slot idx's sums, its pedestal and squared pedestal
        into the slot's pedestal pair, and the slot's count goes up by one. */
    method AddToSums(idx: nat)
      requires Lockstep(Table()) && idx < |summedIndex|
      requires |summedPulses[idx]| == FrameSize && |summedGains[idx]| == FrameSize
      requires DecodedSized(Buffered())
      modifies this`summedPulses, this`summedGains, this`summedPedestal, this`summedCount
      ensures Table() == AddAt(old(Table()), idx, Buffered())
    {
      var pulses := summedPulses[idx];
      var gains := summedGains[idx];
      for j := 0 to FrameSize
        invariant |pulses| == FrameSize && |gains| == FrameSize
        invariant forall i | 0 <= i < j :: pulses[i] == summedPulses[idx][i] + tPulse[i]
        invariant forall i | j <= i < FrameSize :: pulses[i] == summedPulses[idx][i]
        invariant forall i | 0 <= i < j :: gains[i] == summedGains[idx][i] + tGain[i]
        invariant forall i | j <= i < FrameSize :: gains[i] == summedGains[idx][i]
      {
        pulses := pulses[j := pulses[j] + tPulse[j]];
        gains := gains[j := gains[j] + tGain[j]];
      }
      assert pulses == AddVec(summedPulses[idx], tPulse[..]);
      assert gains == AddVec(summedGains[idx], tGain[..]);
      summedPulses := summedPulses[idx := pulses];
      summedGains := summedGains[idx := gains];
      summedPedestal := summedPedestal[idx := (summedPedestal[idx].0 + tPedestal,
                                               summedPedestal[idx].1 + Square(tPedestal))];
      summedCount := summedCount[idx := summedCount[idx] + 1];
    }

    /** The averaging half of FillDigi for a frame that was not dropped:
        find the slot of (id, gain of sample 0), append a zero slot if there
        is none, and add the buffered frame to it. */
    method AddToSlot()
      requires Valid() && doAverage && DecodedSized(Buffered())
      modifies this`summedIndex, this`summedPulses, this`summedGains, this`summedPedestal, this`summedCount
      ensures Valid()
      ensures Table() == Accumulate(old(Table()), Buffered())
    {
      ghost var t := Table();
      var key := Key(tId, tGain[0].Floor);
      assert key == KeyOf(Buffered());
      var idx := Find(summedIndex, key);
      if idx == |summedIndex| {
        summedIndex := summedIndex + [key];
        summedPulses := summedPulses + [Zeros()];
        summedGains := summedGains + [Zeros()];
        summedPedestal := summedPedestal + [(0.0, 0.0)];
        summedCount := summedCount + [0];
        assert summedIndex[|summedIndex| - 1] == key;
        idx := Find(summedIndex, key);
      }
      assert Table() == OpenSlot(t, key);
      AddToSums(idx);
      assert Table() == Accumulate(t, Buffered());
    }

    /** The averaging half of FillDigi: a frame whose peak above its
        pedestal is below the minimum amplitude is dropped, any other frame
        is added to its slot. */
    method AverageBuffered()
      requires Valid() && doAverage && DecodedSized(Buffered())
      modifies this`summedIndex, this`summedPulses, this`summedGains, this`summedPedestal, this`summedCount
      ensures Valid()
      ensures Table() == Step(old(Table()), Buffered(), minAmplitude)
    {
      if -tPedestal + Peak(tPulse[..]) < minAmplitude {
        return;
      }
      AddToSlot();
    }

    /** The raw-mode half of FillDigi: the buffered frame becomes one row. */
    method WriteRaw()
      requires Buffers() && tPedestalVar == 0.0 && tNevt == 0
      modifies this`outTree
      ensures outTree == old(outTree) + [RawRow(tRun, tLumi, tBx, Buffered())]
    {
      outTree := outTree + [CurrentRow()];
    }

    /** Decodes one frame into the branch buffers, then writes it as a row
        (raw mode) or folds it into the table unless it is dropped (average
        mode). */
    method FillDigi(f: Frame)
      requires Valid() && WellSized(f)
      modifies this`tId, this`tGainmask, tPulse, tGain, this`tPedestal, this`tPedestalVar, this`tNevt,
               this`outTree, this`summedIndex, this`summedPulses, this`summedGains,
               this`summedPedestal, this`summedCount
      ensures Valid()
      ensures Buffered() == Decode(f, nPedestalSamples) && tPedestalVar == 0.0 && tNevt == 0
      ensures doAverage ==> Table() == Step(old(Table()), Buffered(), minAmplitude) && outTree == old(outTree)
      ensures !doAverage ==> Table() == old(Table()) && outTree == old(outTree) + [RawRow(tRun, tLumi, tBx, Buffered())]
    {
      DecodeIntoBuffers(f);
      if !doAverage {
        WriteRaw();
      } else {
        AverageBuffered();
      }
    }

    /** The loop over one digi collection. */
    method FillDigis(frames: seq<Frame>)
      requires Valid() && AllWellSized(frames)
      modifies this`tId, this`tGainmask, tPulse, tGain, this`tPedestal, this`tPedestalVar, this`tNevt,
               this`outTree, this`summedIndex, this`summedPulses, this`summedGains,
               this`summedPedestal, this`summedCount
      ensures Valid()
      ensures State() == FillSteps(Mode(), tRun, tLumi, tBx, old(State()), frames)
    {
      ghost var s0 := State();
      for i := 0 to |frames|
        invariant Valid()
        invariant State() == FillSteps(Mode(), tRun, tLumi, tBx, s0, frames[..i])
      {
        FillDigi(frames[i]);
        FillStepsPrefix(Mode(), tRun, tLumi, tBx, s0, frames, i);
      }
      assert frames[..|frames|] == frames;
    }

    /** The lumi-boundary flush: drain the table, clear its five vectors
        and remember the new lumi. */
    method FlushLumi()
      requires Valid()
      modifies this`oldLumi, this`tGainmask, this`tBx, tPulse, tGain, this`tPedestal, this`tPedestalVar,
               this`tId, this`tNevt, this`outTree,
               this`summedIndex, this`summedPulses, this`summedGains, this`summedPedestal, this`summedCount
      ensures Valid()
      ensures State() == Flush(old(State()), tRun, tLumi)
      ensures oldLumi == tLumi && tBx == 0
    {
      WriteAverageOutput();
      summedIndex, summedPulses, summedGains, summedPedestal, summedCount := [], [], [], [], [];
      oldLumi := tLumi;
    }

    /** The frames of one event: the barrel collection, then the endcap
        collection, each only when it is enabled. */
    method FillEvent(eb: seq<Frame>, ee: seq<Frame>)
      requires Valid() && AllWellSized(eb) && AllWellSized(ee)
      modifies this`tId, this`tGainmask, tPulse, tGain, this`tPedestal, this`tPedestalVar, this`tNevt,
               this`outTree, this`summedIndex, this`summedPulses, this`summedGains,
               this`summedPedestal, this`summedCount
      ensures Valid()
      ensures State() == FillSteps(Mode(), tRun, tLumi, tBx, old(State()), Selected(eb, ee))
    {
      ghost var a: seq<Frame> := if doEB then eb else [];
      ghost var b: seq<Frame> := if doEE then ee else [];
      ghost var s0 := State();
      if doEB {
        FillDigis(eb);
      }
      ghost var s1 := State();
      assert s1 == FillSteps(Mode(), tRun, tLumi, tBx, s0, a);
      if doEE {
        FillDigis(ee);
      }
      assert State() == FillSteps(Mode(), tRun, tLumi, tBx, s1, b);
      FillStepsAppend(Mode(), tRun, tLumi, tBx, s0, a, b);
    }

    /** The lumi-boundary check of an event: in split mode, a lumi other
        than the remembered one flushes the table, but only once a lumi has
        been remembered (see FlushDue). */
    method FlushIfDue()
      requires Valid()
      modifies this`oldLumi, this`tGainmask, this`tBx, tPulse, tGain, this`tPedestal, this`tPedestalVar,
               this`tId, this`tNevt, this`outTree,
               this`summedIndex, this`summedPulses, this`summedGains, this`summedPedestal, this`summedCount
      ensures Valid()
      ensures State() == Boundary(splitLumis, old(oldLumi), tRun, tLumi, old(State()))
      ensures oldLumi == NextOldLumi(splitLumis, old(oldLumi), tLumi)
      ensures tBx == if FlushDue(splitLumis, old(oldLumi), tLumi) then 0 else old(tBx)
    {
      if splitLumis && tLumi != oldLumi && oldLumi != 0 {
        FlushLumi();
      }
    }

    /** An event that passed the bunch-crossing filter: the lumi check, then
        the barrel and endcap frames. */
    method FillAccepted(eb: seq<Frame>, ee: seq<Frame>)
      requires Valid() && AllWellSized(eb) && AllWellSized(ee)
      modifies this`tBx, this`oldLumi,
               this`tId, this`tGainmask, tPulse, tGain, this`tPedestal, this`tPedestalVar, this`tNevt,
               this`outTree, this`summedIndex, this`summedPulses, this`summedGains,
               this`summedPedestal, this`summedCount
      ensures Valid()
      ensures oldLumi == NextOldLumi(splitLumis, old(oldLumi), tLumi)
      ensures tBx == if FlushDue(splitLumis, old(oldLumi), tLumi) then 0 else old(tBx)
      ensures State() == FillSteps(Mode(), tRun, tLumi, tBx, Boundary(splitLumis, old(oldLumi), tRun, tLumi, old(State())),
                                   Selected(eb, ee))
    {
      FlushIfDue();
      FillEvent(eb, ee);
    }

    /** One event: set run, lumi and bunch crossing, apply the bunch-crossing
        filter, flush the table at a lumi boundary (guarded, see FlushDue),
        then fill the barrel and endcap frames. */
    method Analyze(run: nat, lumi: nat, bx: nat, eb: seq<Frame>, ee: seq<Frame>)
      requires Valid() && AllWellSized(eb) && AllWellSized(ee)
      modifies this`tRun, this`tLumi, this`tBx, this`oldLumi,
               this`tId, this`tGainmask, tPulse, tGain, this`tPedestal, this`tPedestalVar, this`tNevt,
               this`outTree, this`summedIndex, this`summedPulses, this`summedGains,
               this`summedPedestal, this`summedCount
      ensures Valid()
      ensures tRun == run && tLumi == lumi
      ensures !Passes(bx) ==> State() == old(State()) && oldLumi == old(oldLumi) && tBx == bx
      ensures Passes(bx) ==>
        oldLumi == NextOldLumi(splitLumis, old(oldLumi), lumi) &&
        tBx == (if FlushDue(splitLumis, old(oldLumi), lumi) then 0 else bx)
      ensures Passes(bx) ==>
        State() == FillSteps(Mode(), run, lumi, tBx, Boundary(splitLumis, old(oldLumi), run, lumi, old(State())),
                             Selected(eb, ee))
      ensures old(LumiIdle()) ==> LumiIdle() && !FlushDue(splitLumis, old(oldLumi), lumi)
      ensures old(LumiIdle()) && Passes(bx) ==>
        tBx == bx && State() == FillSteps(Mode(), run, lumi, bx, old(State()), Selected(eb, ee))
    {
      tRun := run;
      tLumi := lumi;
      tBx := bx;
      if doFilterBx {
        var keep := FilterBx(tBx);
        if !keep {
          return;
        }
      }
      FillAccepted(eb, ee);
    }

    /** One slot of the drain into the branch buffers: sums divided by the
        count, the pedestal's mean square minus its squared mean, the id and
        the count. */
    method LoadSlot(idx: nat)
      requires Buffers() && WellFormed(Table()) && idx < |summedIndex| && tBx == 0 && tGainmask == 0
      modifies tPulse, tGain, this`tPedestal, this`tPedestalVar, this`tId, this`tNevt
      ensures CurrentRow() == AverageRow(Table(), idx, tRun, tLumi)
    {
      var den := summedCount[idx] as real;
      for j := 0 to FrameSize
        invariant forall i | 0 <= i < j :: tPulse[i] == summedPulses[idx][i] / den
        invariant forall i | 0 <= i < j :: tGain[i] == summedGains[idx][i] / den
      {
        tPulse[j] := summedPulses[idx][j] / den;
        tGain[j] := summedGains[idx][j] / den;
      }
      tPedestal := summedPedestal[idx].0 / den;
      tPedestalVar := summedPedestal[idx].1 / den - (summedPedestal[idx].0 / den) * (summedPedestal[idx].0 / den);
      tId := summedIndex[idx].id;
      tNevt := summedCount[idx];
      assert tPulse[..] == AverageRow(Table(), idx, tRun, tLumi).pulse;
      assert tGain[..] == AverageRow(Table(), idx, tRun, tLumi).gain;
    }

    /** One iteration of the drain: load slot idx into the branch buffers
        and write the row they hold. */
    method WriteSlot(idx: nat)
      requires Buffers() && WellFormed(Table()) && idx < |summedIndex| && tBx == 0 && tGainmask == 0
      modifies tPulse, tGain, this`tPedestal, this`tPedestalVar, this`tId, this`tNevt, this`outTree
      ensures outTree == old(outTree) + [AverageRow(Table(), idx, tRun, tLumi)]
    {
      LoadSlot(idx);
      outTree := outTree + [CurrentRow()];
    }

    /** Drains the table: one row per slot, in insertion order, through the
        branch buffers. The table itself is left as it is. */
    method WriteAverageOutput()
      requires Buffers() && WellFormed(Table())
      modifies this`tGainmask, this`tBx, tPulse, tGain, this`tPedestal, this`tPedestalVar,
               this`tId, this`tNevt, this`outTree
      ensures Table() == old(Table())
      ensures outTree == old(outTree) + AverageRows(Table(), tRun, tLumi)
      ensures tBx == 0 && tGainmask == 0
    {
      tGainmask := 0;
      tBx := 0;
      for idx := 0 to |summedCount|
        invariant outTree == old(outTree) + AverageRows(Table(), tRun, tLumi)[..idx]
        invariant tBx == 0 && tGainmask == 0
      {
        WriteSlot(idx);
        RowsSnoc(AverageRows(Table(), tRun, tLumi), idx);
      }
      assert AverageRows(Table(), tRun, tLumi)[..|summedCount|] == AverageRows(Table(), tRun, tLumi);
    }

    /** The end of the job: the final drain, in average mode only. */
    method EndJob()
      requires Valid()
      modifies this`tGainmask, this`tBx, tPulse, tGain, this`tPedestal, this`tPedestalVar,
               this`tId, this`tNevt, this`outTree
      ensures Valid()
      ensures Table() == old(Table())
      ensures outTree == old(outTree) + (if doAverage then AverageRows(Table(), tRun, tLumi) else [])
    {
      if doAverage {
        WriteAverageOutput();
      }
    }
  }
}
