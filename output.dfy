/** The rows handed to the output tree. One row type covers both modes: the
    columns a mode does not write stay at the values the analyzer left in its
    branch buffers. */
module Output {
  import opened Samples

  /** One filled row: run, lumi, bx, channel id, ten pulse and gain values,
      pedestal, the pedestal's second central moment (the square of the
      pedestal_rms column), gain-usage mask, and number of averaged events. */
  datatype Row = Row(run: nat, lumi: nat, bx: nat, id: nat,
                     pulse: seq<real>, gain: seq<real>,
                     pedestal: real, pedestalVar: real,
                     gainmask: bv16, nevt: nat)

  /** The row written for one decoded frame in raw mode. */
  function RawRow(run: nat, lumi: nat, bx: nat, d: Decoded): Row {
    Row(run, lumi, bx, d.id, d.pulse, d.gain, d.pedestal, 0.0, d.gainmask, 0)
  }

  /** The decoded frame whose values a row carries. */
  function Carried(r: Row): Decoded {
    Decoded(r.id, r.pulse, r.gain, r.gainmask, r.pedestal)
  }

  /** A raw row carries exactly its frame's decoded values, the event's run,
      lumi and bunch crossing, and a zero pedestal spread and event count. */
  lemma RawRowCarried(run: nat, lumi: nat, bx: nat, d: Decoded)
    ensures var r := RawRow(run, lumi, bx, d);
      Carried(r) == d && r.run == run && r.lumi == lumi && r.bx == bx &&
      r.pedestalVar == 0.0 && r.nevt == 0
  {
  }

  /** The rows written for a list of decoded frames in raw mode, one per
      frame, in order. */
  function RawRows(run: nat, lumi: nat, bx: nat, ds: seq<Decoded>): (rs: seq<Row>)
    ensures |rs| == |ds|
    ensures forall i | 0 <= i < |ds| :: rs[i] == RawRow(run, lumi, bx, ds[i])
    decreases |ds|
  {
    if ds == [] then [] else RawRows(run, lumi, bx, ds[..|ds| - 1]) + [RawRow(run, lumi, bx, ds[|ds| - 1])]
  }

  /** Extending a prefix of rows by the next row. */
  lemma RowsSnoc(rows: seq<Row>, i: nat)
    requires i < |rows|
    ensures rows[..i + 1] == rows[..i] + [rows[i]]
  {
  }
}
