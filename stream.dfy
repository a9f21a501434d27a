/** The analyzer's effect on its output, as pure functions: per frame, per
    list of frames, and the lumi-boundary guard. */
module Stream {
  import opened Samples
  import opened Output
  import opened Accumulation

  /** What the analyzer has produced so far: the averaging table and the
      rows written to the output tree. */
  datatype Sink = Sink(table: Summed, rows: seq<Row>)

  /** The analyzer's settings that shape what a frame does: the mode, the
      number of samples in the pedestal, and the minimum peak height above
      pedestal for a frame to enter the averages. */
  datatype Settings = Settings(doAverage: bool, nPedestalSamples: nat, minAmplitude: real)

  predicate Usable(c: Settings) {
    0 < c.nPedestalSamples <= FrameSize
  }

  /** One frame: in raw mode a row with the event's run, lumi and bunch
      crossing and the frame's decoded values is written; in average mode
      the decoded frame is folded into the table (or dropped). */
  function FillStep(c: Settings, run: nat, lumi: nat, bx: nat, s: Sink, f: Frame): (r: Sink)
    requires Usable(c) && WellFormed(s.table) && WellSized(f)
    ensures WellFormed(r.table)
    ensures c.doAverage ==> r.rows == s.rows
    ensures !c.doAverage ==> r.table == s.table && |r.rows| == |s.rows| + 1
  {
    var d := Decode(f, c.nPedestalSamples);
    if c.doAverage then Sink(Step(s.table, d, c.minAmplitude), s.rows)
    else Sink(s.table, s.rows + [RawRow(run, lumi, bx, d)])
  }

  /** A list of frames, in order. */
  function FillSteps(c: Settings, run: nat, lumi: nat, bx: nat, s: Sink, fs: seq<Frame>): (r: Sink)
    requires Usable(c) && WellFormed(s.table) && AllWellSized(fs)
    ensures WellFormed(r.table)
    decreases |fs|, 1
  {
    if fs == [] then s else FillLast(c, run, lumi, bx, s, fs)
  }

  /** A non-empty list of frames: all but the last, then the last. */
  function FillLast(c: Settings, run: nat, lumi: nat, bx: nat, s: Sink, fs: seq<Frame>): (r: Sink)
    requires Usable(c) && WellFormed(s.table) && AllWellSized(fs) && fs != []
    ensures WellFormed(r.table)
    decreases |fs|, 0
  {
    FillStep(c, run, lumi, bx, FillSteps(c, run, lumi, bx, s, fs[..|fs| - 1]), fs[|fs| - 1])
  }

  lemma FillStepsPrefix(c: Settings, run: nat, lumi: nat, bx: nat, s: Sink, fs: seq<Frame>, i: nat)
    requires Usable(c) && WellFormed(s.table) && AllWellSized(fs) && i < |fs|
    ensures AllWellSized(fs[..i]) && WellSized(fs[i])
    ensures FillSteps(c, run, lumi, bx, s, fs[..i + 1]) ==
      FillStep(c, run, lumi, bx, FillSteps(c, run, lumi, bx, s, fs[..i]), fs[i])
  {
    assert fs[..i + 1][..i] == fs[..i];
  }

  /** Raw mode: the table is untouched and one row per frame is appended,
      in order, carrying the frame's decoded values. */
  lemma {:induction false} FillStepsRaw(c: Settings, run: nat, lumi: nat, bx: nat, s: Sink, fs: seq<Frame>)
    requires Usable(c) && !c.doAverage && WellFormed(s.table) && AllWellSized(fs)
    ensures FillSteps(c, run, lumi, bx, s, fs) ==
      Sink(s.table, s.rows + RawRows(run, lumi, bx, DecodeAll(fs, c.nPedestalSamples)))
    decreases |fs|
  {
    if fs != [] {
      var front := fs[..|fs| - 1];
      var ds := DecodeAll(fs, c.nPedestalSamples);
      FillStepsRaw(c, run, lumi, bx, s, front);
      assert ds[..|ds| - 1] == DecodeAll(front, c.nPedestalSamples);
      assert s.rows + RawRows(run, lumi, bx, ds) ==
             (s.rows + RawRows(run, lumi, bx, ds[..|ds| - 1])) + [RawRow(run, lumi, bx, ds[|ds| - 1])];
    }
  }

  /** Average mode: nothing is written and the table is the fold of the
      decoded frames into it. */
  lemma {:induction false} FillStepsAverage(c: Settings, run: nat, lumi: nat, bx: nat, s: Sink, fs: seq<Frame>)
    requires Usable(c) && c.doAverage && WellFormed(s.table) && AllWellSized(fs)
    ensures FillSteps(c, run, lumi, bx, s, fs) ==
      Sink(Fold(s.table, DecodeAll(fs, c.nPedestalSamples), c.minAmplitude), s.rows)
    decreases |fs|
  {
    if fs != [] {
      var ds := DecodeAll(fs, c.nPedestalSamples);
      FillStepsAverage(c, run, lumi, bx, s, fs[..|fs| - 1]);
      assert ds[..|ds| - 1] == DecodeAll(fs[..|fs| - 1], c.nPedestalSamples);
    }
  }

  /** Filling a concatenation fills one list after the other. */
  lemma {:induction false} FillStepsAppend(c: Settings, run: nat, lumi: nat, bx: nat, s: Sink,
                                           a: seq<Frame>, b: seq<Frame>)
    requires Usable(c) && WellFormed(s.table) && AllWellSized(a) && AllWellSized(b)
    ensures AllWellSized(a + b)
    ensures FillSteps(c, run, lumi, bx, s, a + b) == FillSteps(c, run, lumi, bx, FillSteps(c, run, lumi, bx, s, a), b)
    decreases |b|
  {
    if b == [] {
      assert a + b == a;
    } else {
      assert (a + b)[..|a + b| - 1] == a + b[..|b| - 1];
      FillStepsAppend(c, run, lumi, bx, s, a, b[..|b| - 1]);
    }
  }

  /** The lumi-boundary flush: the table is drained and emptied. */
  function Flush(s: Sink, run: nat, lumi: nat): (r: Sink)
    requires WellFormed(s.table)
    ensures r.table == Empty && |r.rows| == |s.rows| + |s.table.index|
  {
    Sink(Empty, s.rows + AverageRows(s.table, run, lumi))
  }

  // ---------------------------------------------------------------- lumi guard

  /** The guard of the lumi-boundary flush. */
  predicate FlushDue(splitLumis: bool, oldLumi: nat, lumi: nat) {
    splitLumis && lumi != oldLumi && oldLumi != 0
  }

  /** old_lumi after an event with the given lumi passed the filter: it is
      assigned only inside the flush. */
  function NextOldLumi(splitLumis: bool, oldLumi: nat, lumi: nat): (o: nat)
    ensures o == oldLumi || FlushDue(splitLumis, oldLumi, lumi)
    ensures FlushDue(splitLumis, oldLumi, lumi) ==> o == lumi
  {
    if FlushDue(splitLumis, oldLumi, lumi) then lumi else oldLumi
  }

  /** The sink after the lumi check of an event: flushed when the guard
      holds, untouched otherwise. */
  function Boundary(splitLumis: bool, oldLumi: nat, run: nat, lumi: nat, s: Sink): Sink
    requires WellFormed(s.table)
  {
    if FlushDue(splitLumis, oldLumi, lumi) then Flush(s, run, lumi) else s
  }

  /** The guard is off when splitting is off, when the lumi is the
      remembered one, and while no lumi has been remembered. */
  lemma FlushDueOff(splitLumis: bool, oldLumi: nat, lumi: nat)
    ensures !splitLumis ==> !FlushDue(splitLumis, oldLumi, lumi)
    ensures lumi == oldLumi ==> !FlushDue(splitLumis, oldLumi, lumi)
    ensures oldLumi == 0 ==> !FlushDue(splitLumis, oldLumi, lumi)
  {
  }

  /** While no lumi has been remembered, the lumi check leaves the table
      and the rows as they are. */
  lemma BoundaryIdle(splitLumis: bool, run: nat, lumi: nat, s: Sink)
    requires WellFormed(s.table)
    ensures Boundary(splitLumis, 0, run, lumi, s) == s
  {
  }

  /** old_lumi after a stream of events with the given lumis. */
  function OldLumiAfter(splitLumis: bool, oldLumi: nat, lumis: seq<nat>): nat
    decreases |lumis|
  {
    if lumis == [] then oldLumi
    else NextOldLumi(splitLumis, OldLumiAfter(splitLumis, oldLumi, lumis[..|lumis| - 1]), lumis[|lumis| - 1])
  }

  /** Starting from old_lumi = 0, old_lumi stays 0 for every stream and the
      flush is due at no event of it, whatever the lumis and the flag. */
  lemma {:induction false} FlushNeverDue(splitLumis: bool, lumis: seq<nat>)
    ensures OldLumiAfter(splitLumis, 0, lumis) == 0
    ensures forall i | 0 <= i < |lumis| :: !FlushDue(splitLumis, OldLumiAfter(splitLumis, 0, lumis[..i]), lumis[i])
    decreases |lumis|
  {
    if lumis != [] {
      var front := lumis[..|lumis| - 1];
      FlushNeverDue(splitLumis, front);
      forall i | 0 <= i < |lumis|
        ensures !FlushDue(splitLumis, OldLumiAfter(splitLumis, 0, lumis[..i]), lumis[i])
      {
        if i < |front| {
          assert lumis[..i] == front[..i];
        } else {
          assert lumis[..i] == front;
        }
      }
    }
  }

  /** The guard is what keeps the flush off: with a non-zero old_lumi and
      splitting on, a change of lumi would flush. */
  lemma FlushNeedsOldLumi(oldLumi: nat, lumi: nat)
    requires oldLumi != 0 && lumi != oldLumi
    ensures FlushDue(true, oldLumi, lumi)
    ensures NextOldLumi(true, oldLumi, lumi) == lumi
  {
  }
}
