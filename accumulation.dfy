/** The averaging table: one accumulator per (channel id, gain of the first
    sample), kept as five parallel vectors in order of first appearance,
    and the rows a drain of the table writes. */
module Accumulation {
  import opened Samples
  import opened Output

  /** Key of the table: channel id and the gain code of sample 0. */
  datatype Key = Key(id: nat, gain0: int)

  /** The key of a decoded frame; the gain is read back from its float buffer. */
  function KeyOf(d: Decoded): Key
    requires DecodedSized(d)
  {
    Key(d.id, d.gain[0].Floor)
  }

  /** Reading the gain back from the float buffer recovers the gain code:
      a decoded frame's key is its id and the gain code of its sample 0. */
  lemma KeyOfDecoded(f: Frame, n: nat)
    requires WellSized(f) && 0 < n <= FrameSize
    ensures KeyOf(Decode(f, n)) == Key(f.id, GainId(f.words[0]))
  {
    assert Decode(f, n).gain[0] == GainId(f.words[0]) as real;
  }

  /** The five parallel vectors summed_index, summed_pulses, summed_gains,
      summed_pedestal (sum of pedestals, sum of their squares) and
      summed_count, as one value. */
  datatype Summed = Summed(index: seq<Key>, pulses: seq<seq<real>>, gains: seq<seq<real>>,
                           pedestal: seq<(real, real)>, count: seq<int>)

  const Empty: Summed := Summed([], [], [], [], [])

  /** The five vectors have the same length. */
  predicate Lockstep(t: Summed) {
    |t.pulses| == |t.index| && |t.gains| == |t.index| &&
    |t.pedestal| == |t.index| && |t.count| == |t.index|
  }

  /** The table invariant: the vectors are in lockstep, every slot holds ten
      sums, every count is at least 1, and no key occurs twice. */
  predicate WellFormed(t: Summed) {
    Lockstep(t) &&
    (forall k | 0 <= k < |t.index| :: |t.pulses[k]| == FrameSize && |t.gains[k]| == FrameSize && t.count[k] >= 1) &&
    (forall k, l | 0 <= k < l < |t.index| :: t.index[k] != t.index[l])
  }

  /** What one accumulator holds: the ten pulse sums, the ten gain sums, the
      sum of pedestals, the sum of their squares and the number of frames. */
  datatype Totals = Totals(pulses: seq<real>, gains: seq<real>, pedSum: real, pedSqSum: real, count: int)

  function Zeros(): (z: seq<real>)
    ensures |z| == FrameSize
  {
    seq(FrameSize, _ => 0.0)
  }

  const NoTotals: Totals := Totals(Zeros(), Zeros(), 0.0, 0.0, 0)

  predicate TotalsSized(s: Totals) {
    |s.pulses| == FrameSize && |s.gains| == FrameSize
  }

  /** Element-wise sum of two vectors of equal length. */
  function AddVec(a: seq<real>, b: seq<real>): (c: seq<real>)
    requires |a| == |b|
    ensures |c| == |a|
    ensures forall j | 0 <= j < |a| :: c[j] == a[j] + b[j]
  {
    seq(|a|, j requires 0 <= j < |a| => a[j] + b[j])
  }

  /** The square of a pedestal, as std::pow(x, 2) computes it in exact
      arithmetic. */
  function Square(x: real): real {
    x * x
  }

  /** The totals after one more frame: its pulse, gain, pedestal and squared
      pedestal are added and the count goes up by one. */
  function Contribute(s: Totals, d: Decoded): (r: Totals)
    requires TotalsSized(s) && DecodedSized(d)
    ensures TotalsSized(r)
  {
    Totals(AddVec(s.pulses, d.pulse), AddVec(s.gains, d.gain),
           s.pedSum + d.pedestal, s.pedSqSum + Square(d.pedestal), s.count + 1)
  }

  /** A first contribution holds exactly the frame's own values. */
  lemma FirstContribution(d: Decoded)
    requires DecodedSized(d)
    ensures Contribute(NoTotals, d) == Totals(d.pulse, d.gain, d.pedestal, Square(d.pedestal), 1)
  {
    assert AddVec(Zeros(), d.pulse) == d.pulse;
    assert AddVec(Zeros(), d.gain) == d.gain;
  }

  /** Slot k of the table, read across the five vectors. */
  function EntryAt(t: Summed, k: nat): Totals
    requires Lockstep(t) && k < |t.index|
  {
    Totals(t.pulses[k], t.gains[k], t.pedestal[k].0, t.pedestal[k].1, t.count[k])
  }

  /** Linear search: the position of the first occurrence of key, or
      |index| when it does not occur. */
  function Find(index: seq<Key>, key: Key): (i: nat)
    ensures i <= |index|
    ensures i < |index| ==> index[i] == key
    ensures forall k | 0 <= k < i :: index[k] != key
    decreases |index|
  {
    if index == [] then 0
    else if index[0] == key then 0
    else 1 + Find(index[1..], key)
  }

  /** A slot with zero sums and count 0, appended for a new key. */
  function AppendZero(t: Summed, key: Key): Summed {
    Summed(t.index + [key], t.pulses + [Zeros()], t.gains + [Zeros()],
           t.pedestal + [(0.0, 0.0)], t.count + [0])
  }

  /** Slot i after one more frame. */
  function AddAt(t: Summed, i: nat, d: Decoded): Summed
    requires Lockstep(t) && i < |t.index| && |t.pulses[i]| == FrameSize && |t.gains[i]| == FrameSize
    requires DecodedSized(d)
  {
    Summed(t.index,
           t.pulses[i := AddVec(t.pulses[i], d.pulse)],
           t.gains[i := AddVec(t.gains[i], d.gain)],
           t.pedestal[i := (t.pedestal[i].0 + d.pedestal, t.pedestal[i].1 + Square(d.pedestal))],
           t.count[i := t.count[i] + 1])
  }

  /** Appending keeps the vectors in lockstep, puts the key last with zero
      totals, and leaves every earlier slot as it was. */
  lemma AppendZeroSlot(t: Summed, key: Key)
    requires Lockstep(t)
    ensures var r := AppendZero(t, key);
      r.index == t.index + [key] && Lockstep(r) && EntryAt(r, |t.index|) == NoTotals &&
      forall k | 0 <= k < |t.index| :: EntryAt(r, k) == EntryAt(t, k)
  {
  }

  /** Adding at slot i gives that slot one more contribution and changes no
      key and no other slot. */
  lemma AddAtSlot(t: Summed, i: nat, d: Decoded)
    requires Lockstep(t) && i < |t.index| && |t.pulses[i]| == FrameSize && |t.gains[i]| == FrameSize
    requires DecodedSized(d)
    ensures var r := AddAt(t, i, d);
      r.index == t.index && Lockstep(r) && EntryAt(r, i) == Contribute(EntryAt(t, i), d) &&
      forall k | 0 <= k < |t.index| && k != i :: EntryAt(r, k) == EntryAt(t, k)
  {
  }

  /** The table with a slot for key: unchanged when the key is present,
      otherwise with a zero slot appended for it. */
  function OpenSlot(t: Summed, key: Key): (r: Summed)
    requires WellFormed(t)
    ensures Lockstep(r) && Find(r.index, key) < |r.index|
    ensures |r.pulses[Find(r.index, key)]| == FrameSize && |r.gains[Find(r.index, key)]| == FrameSize
  {
    if Find(t.index, key) < |t.index| then t
    else
      var r := AppendZero(t, key);
      assert Find(r.index, key) == |t.index| by {
        assert r.index[|t.index|] == key;
        assert forall k | 0 <= k < |t.index| :: r.index[k] == t.index[k];
      }
      r
  }

  /** Folding one frame into the table: a new key gets a zero slot at the
      end, then the slot of the frame's key receives its contribution. */
  function Accumulate(t: Summed, d: Decoded): (r: Summed)
    requires WellFormed(t) && DecodedSized(d)
    ensures WellFormed(r)
  {
    var t1 := OpenSlot(t, KeyOf(d));
    AddAt(t1, Find(t1.index, KeyOf(d)), d)
  }

  /** A frame with a key the table does not hold opens a slot at the end
      holding just that frame's contribution; the other slots are unchanged. */
  lemma AccumulateNew(t: Summed, d: Decoded)
    requires WellFormed(t) && DecodedSized(d) && KeyOf(d) !in t.index
    ensures var r := Accumulate(t, d);
      r.index == t.index + [KeyOf(d)] &&
      (forall k | 0 <= k < |t.index| :: EntryAt(r, k) == EntryAt(t, k)) &&
      EntryAt(r, |t.index|) == Contribute(NoTotals, d)
  {
    var key := KeyOf(d);
    var t1 := AppendZero(t, key);
    assert Find(t.index, key) == |t.index|;
    assert Find(t1.index, key) == |t.index| by {
      assert t1.index[|t.index|] == key;
      assert forall k | 0 <= k < |t.index| :: t1.index[k] == t.index[k];
    }
  }

  /** A frame with a key the table holds adds its contribution to that
      key's slot and to no other. */
  lemma AccumulateKnown(t: Summed, d: Decoded)
    requires WellFormed(t) && DecodedSized(d) && KeyOf(d) in t.index
    ensures var r := Accumulate(t, d);
      r.index == t.index &&
      forall k | 0 <= k < |t.index| ::
        EntryAt(r, k) == if t.index[k] == KeyOf(d) then Contribute(EntryAt(t, k), d) else EntryAt(t, k)
  {
    var i := Find(t.index, KeyOf(d));
    assert i < |t.index|;
    assert forall k | 0 <= k < |t.index| :: t.index[k] == KeyOf(d) <==> k == i;
  }

  /** Whether a frame is too small to be averaged: peak minus pedestal
      below the configured minimum amplitude. */
  predicate Dropped(d: Decoded, minAmplitude: real)
    requires DecodedSized(d)
  {
    -d.pedestal + Peak(d.pulse) < minAmplitude
  }

  /** A frame is dropped exactly when every one of its samples lies less
      than the minimum amplitude above its pedestal. */
  lemma DroppedIffAllBelow(d: Decoded, minAmplitude: real)
    requires DecodedSized(d)
    ensures Dropped(d, minAmplitude) <==> forall j | 0 <= j < FrameSize :: d.pulse[j] - d.pedestal < minAmplitude
  {
    var j :| 0 <= j < |d.pulse| && d.pulse[j] == Peak(d.pulse);
  }

  /** One frame in average mode: a dropped frame leaves the table as it is. */
  function Step(t: Summed, d: Decoded, minAmplitude: real): (r: Summed)
    requires WellFormed(t) && DecodedSized(d)
    ensures WellFormed(r)
  {
    if Dropped(d, minAmplitude) then t else Accumulate(t, d)
  }

  predicate AllSized(ds: seq<Decoded>) {
    forall i | 0 <= i < |ds| :: DecodedSized(ds[i])
  }

  /** The table after a list of frames, in order. */
  function Fold(t: Summed, ds: seq<Decoded>, minAmplitude: real): (r: Summed)
    requires WellFormed(t) && AllSized(ds)
    ensures WellFormed(r)
    decreases |ds|
  {
    if ds == [] then t
    else Step(Fold(t, ds[..|ds| - 1], minAmplitude), ds[|ds| - 1], minAmplitude)
  }

  /** Folding a concatenation is folding one list after the other. */
  lemma {:induction false} FoldAppend(t: Summed, a: seq<Decoded>, b: seq<Decoded>, minAmplitude: real)
    requires WellFormed(t) && AllSized(a) && AllSized(b)
    ensures AllSized(a + b)
    ensures Fold(t, a + b, minAmplitude) == Fold(Fold(t, a, minAmplitude), b, minAmplitude)
    decreases |b|
  {
    if b == [] {
      assert a + b == a;
    } else {
      var b' := b[..|b| - 1];
      assert (a + b)[..|a + b| - 1] == a + b';
      FoldAppend(t, a, b', minAmplitude);
    }
  }

  /** The frames of a list that reach the slot of key: not dropped and
      carrying that key. */
  function Matching(ds: seq<Decoded>, key: Key, minAmplitude: real): (ms: seq<Decoded>)
    requires AllSized(ds)
    ensures AllSized(ms)
    decreases |ds|
  {
    if ds == [] then []
    else
      var d := ds[|ds| - 1];
      var front := Matching(ds[..|ds| - 1], key, minAmplitude);
      if !Dropped(d, minAmplitude) && KeyOf(d) == key then front + [d] else front
  }

  /** The totals of a list of frames, accumulated one by one. */
  function Tally(ds: seq<Decoded>): (s: Totals)
    requires AllSized(ds)
    ensures TotalsSized(s) && s.count == |ds|
    decreases |ds|
  {
    if ds == [] then NoTotals else Contribute(Tally(ds[..|ds| - 1]), ds[|ds| - 1])
  }

  /** Sample j's pulse of every frame of a list. */
  function PulseColumn(ds: seq<Decoded>, j: nat): (c: seq<real>)
    requires AllSized(ds) && j < FrameSize
    ensures |c| == |ds|
  {
    seq(|ds|, i requires 0 <= i < |ds| => ds[i].pulse[j])
  }

  /** Sample j's gain of every frame of a list. */
  function GainColumn(ds: seq<Decoded>, j: nat): (c: seq<real>)
    requires AllSized(ds) && j < FrameSize
    ensures |c| == |ds|
  {
    seq(|ds|, i requires 0 <= i < |ds| => ds[i].gain[j])
  }

  /** The pedestals, and their squares, of every frame of a list. */
  function Pedestals(ds: seq<Decoded>): (c: seq<real>)
    ensures |c| == |ds|
  {
    seq(|ds|, i requires 0 <= i < |ds| => ds[i].pedestal)
  }

  function SquaredPedestals(ds: seq<Decoded>): (c: seq<real>)
    ensures |c| == |ds|
  {
    seq(|ds|, i requires 0 <= i < |ds| => Square(ds[i].pedestal))
  }

  /** Accumulating frame by frame gives the plain sums: each pulse and gain
      total is the sum of that sample over the frames, and the pedestal
      totals are the sums of the pedestals and of their squares. */
  lemma {:induction false} TallySums(ds: seq<Decoded>)
    requires AllSized(ds)
    ensures forall j | 0 <= j < FrameSize ::
      Tally(ds).pulses[j] == Sum(PulseColumn(ds, j)) && Tally(ds).gains[j] == Sum(GainColumn(ds, j))
    ensures Tally(ds).pedSum == Sum(Pedestals(ds)) && Tally(ds).pedSqSum == Sum(SquaredPedestals(ds))
    decreases |ds|
  {
    if ds != [] {
      var front := ds[..|ds| - 1];
      var d := ds[|ds| - 1];
      TallySums(front);
      assert Tally(ds) == Contribute(Tally(front), d);
      forall j | 0 <= j < FrameSize
        ensures Tally(ds).pulses[j] == Sum(PulseColumn(ds, j)) && Tally(ds).gains[j] == Sum(GainColumn(ds, j))
      {
        assert PulseColumn(ds, j)[..|ds| - 1] == PulseColumn(front, j);
        assert GainColumn(ds, j)[..|ds| - 1] == GainColumn(front, j);
      }
      assert Pedestals(ds)[..|ds| - 1] == Pedestals(front);
      assert SquaredPedestals(ds)[..|ds| - 1] == SquaredPedestals(front);
    }
  }

  lemma MatchingSnoc(front: seq<Decoded>, d: Decoded, key: Key, minAmplitude: real)
    requires AllSized(front) && DecodedSized(d)
    ensures AllSized(front + [d])
    ensures Matching(front + [d], key, minAmplitude) ==
      if !Dropped(d, minAmplitude) && KeyOf(d) == key then Matching(front, key, minAmplitude) + [d]
      else Matching(front, key, minAmplitude)
  {
    assert (front + [d])[..|front|] == front;
  }

  lemma TallySnoc(ms: seq<Decoded>, d: Decoded)
    requires AllSized(ms) && DecodedSized(d)
    ensures AllSized(ms + [d])
    ensures Tally(ms + [d]) == Contribute(Tally(ms), d)
  {
    assert (ms + [d])[..|ms|] == ms;
  }

  /** Table t holds exactly the totals of the undropped frames of ds, one
      slot per key. */
  ghost predicate Tallied(t: Summed, ds: seq<Decoded>, minAmplitude: real)
    requires WellFormed(t) && AllSized(ds)
  {
    (forall key :: key in t.index <==> Matching(ds, key, minAmplitude) != []) &&
    (forall k | 0 <= k < |t.index| :: EntryAt(t, k) == Tally(Matching(ds, t.index[k], minAmplitude)))
  }

  /** Matching, for every key at once, after one more frame. */
  lemma MatchingSnocAll(front: seq<Decoded>, d: Decoded, minAmplitude: real)
    requires AllSized(front) && DecodedSized(d)
    ensures AllSized(front + [d])
    ensures forall key :: Matching(front + [d], key, minAmplitude) ==
                         if !Dropped(d, minAmplitude) && KeyOf(d) == key then Matching(front, key, minAmplitude) + [d]
                         else Matching(front, key, minAmplitude)
  {
    forall key
      ensures Matching(front + [d], key, minAmplitude) ==
        if !Dropped(d, minAmplitude) && KeyOf(d) == key then Matching(front, key, minAmplitude) + [d]
        else Matching(front, key, minAmplitude)
    {
      MatchingSnoc(front, d, key, minAmplitude);
    }
  }

  /** A dropped frame changes neither the table nor any slot's frames. */
  lemma TalliedDropped(t0: Summed, front: seq<Decoded>, d: Decoded, minAmplitude: real)
    requires WellFormed(t0) && AllSized(front) && DecodedSized(d)
    requires Tallied(t0, front, minAmplitude) && Dropped(d, minAmplitude)
    ensures AllSized(front + [d])
    ensures Tallied(t0, front + [d], minAmplitude)
  {
    MatchingSnocAll(front, d, minAmplitude);
  }

  /** A frame with a key already in the table adds to that slot only. */
  lemma TalliedExisting(t0: Summed, front: seq<Decoded>, d: Decoded, minAmplitude: real)
    requires WellFormed(t0) && AllSized(front) && DecodedSized(d)
    requires Tallied(t0, front, minAmplitude) && !Dropped(d, minAmplitude) && KeyOf(d) in t0.index
    ensures AllSized(front + [d])
    ensures Tallied(Accumulate(t0, d), front + [d], minAmplitude)
  {
    AccumulateKnown(t0, d);
    MatchingSnocAll(front, d, minAmplitude);
    TallySnoc(Matching(front, KeyOf(d), minAmplitude), d);
  }

  /** The frames of a key no frame of front carries, after one more
      undropped frame with that key: just that frame. */
  lemma MatchingFirst(front: seq<Decoded>, d: Decoded, minAmplitude: real)
    requires AllSized(front) && DecodedSized(d) && !Dropped(d, minAmplitude)
    requires Matching(front, KeyOf(d), minAmplitude) == []
    ensures AllSized(front + [d])
    ensures Matching(front + [d], KeyOf(d), minAmplitude) == [d]
  {
    MatchingSnoc(front, d, KeyOf(d), minAmplitude);
    assert [] + [d] == [d];
  }

  /** The keys half of TalliedNew: the new slot's key is the only key that
      starts to match. */
  lemma TalliedNewKeys(t0: Summed, front: seq<Decoded>, d: Decoded, minAmplitude: real)
    requires WellFormed(t0) && AllSized(front) && DecodedSized(d)
    requires Tallied(t0, front, minAmplitude) && !Dropped(d, minAmplitude) && KeyOf(d) !in t0.index
    ensures AllSized(front + [d])
    ensures forall x :: x in Accumulate(t0, d).index <==> Matching(front + [d], x, minAmplitude) != []
  {
    var t := Accumulate(t0, d);
    AccumulateNew(t0, d);
    forall x
      ensures x in t.index <==> Matching(front + [d], x, minAmplitude) != []
    {
      if x == KeyOf(d) {
        MatchingFirst(front, d, minAmplitude);
        assert t.index[|t0.index|] == x;
      } else {
        MatchingSnoc(front, d, x, minAmplitude);
        assert x in t.index <==> x in t0.index;
      }
    }
  }

  /** The slots half of TalliedNew: old slots keep their totals, the new
      slot holds the totals of the one frame. */
  lemma TalliedNewEntries(t0: Summed, front: seq<Decoded>, d: Decoded, minAmplitude: real)
    requires WellFormed(t0) && AllSized(front) && DecodedSized(d)
    requires Tallied(t0, front, minAmplitude) && !Dropped(d, minAmplitude) && KeyOf(d) !in t0.index
    ensures AllSized(front + [d])
    ensures var t := Accumulate(t0, d);
      forall k | 0 <= k < |t.index| :: EntryAt(t, k) == Tally(Matching(front + [d], t.index[k], minAmplitude))
  {
    var t := Accumulate(t0, d);
    AccumulateNew(t0, d);
    MatchingSnocAll(front, d, minAmplitude);
    forall k | 0 <= k < |t.index|
      ensures EntryAt(t, k) == Tally(Matching(front + [d], t.index[k], minAmplitude))
    {
      if k < |t0.index| {
        assert t.index[k] == t0.index[k];
      } else {
        MatchingFirst(front, d, minAmplitude);
        TallySnoc([], d);
        assert [] + [d] == [d];
      }
    }
  }

  /** A frame with a new key opens a slot holding just that frame. */
  lemma TalliedNew(t0: Summed, front: seq<Decoded>, d: Decoded, minAmplitude: real)
    requires WellFormed(t0) && AllSized(front) && DecodedSized(d)
    requires Tallied(t0, front, minAmplitude) && !Dropped(d, minAmplitude) && KeyOf(d) !in t0.index
    ensures AllSized(front + [d])
    ensures Tallied(Accumulate(t0, d), front + [d], minAmplitude)
  {
    TalliedNewKeys(t0, front, d, minAmplitude);
    TalliedNewEntries(t0, front, d, minAmplitude);
  }

  /** One more frame keeps the table tallied. */
  lemma TalliedStep(t0: Summed, front: seq<Decoded>, d: Decoded, minAmplitude: real)
    requires WellFormed(t0) && AllSized(front) && DecodedSized(d)
    requires Tallied(t0, front, minAmplitude)
    ensures AllSized(front + [d])
    ensures Tallied(Step(t0, d, minAmplitude), front + [d], minAmplitude)
  {
    if Dropped(d, minAmplitude) {
      TalliedDropped(t0, front, d, minAmplitude);
    } else if KeyOf(d) in t0.index {
      TalliedExisting(t0, front, d, minAmplitude);
    } else {
      TalliedNew(t0, front, d, minAmplitude);
    }
  }

  /** Starting from an empty table, folding frames in gives one slot per key
      that some undropped frame carries, and each slot holds exactly the
      totals of the frames that reached it. */
  lemma {:induction false} FoldTallies(ds: seq<Decoded>, minAmplitude: real)
    requires AllSized(ds)
    ensures Tallied(Fold(Empty, ds, minAmplitude), ds, minAmplitude)
    decreases |ds|
  {
    if ds != [] {
      var front := ds[..|ds| - 1];
      FoldTallies(front, minAmplitude);
      assert ds == front + [ds[|ds| - 1]];
      TalliedStep(Fold(Empty, front, minAmplitude), front, ds[|ds| - 1], minAmplitude);
    }
  }

  /** The keys of the undropped frames of a list, each once, in the order
      of their first undropped frame. */
  function FirstKeys(ds: seq<Decoded>, minAmplitude: real): seq<Key>
    requires AllSized(ds)
    decreases |ds|
  {
    if ds == [] then []
    else
      var keys := FirstKeys(ds[..|ds| - 1], minAmplitude);
      var d := ds[|ds| - 1];
      if !Dropped(d, minAmplitude) && KeyOf(d) !in keys then keys + [KeyOf(d)] else keys
  }

  /** From an empty table, the slots are in the order in which their keys
      first reached the table, which is the order the drain writes them. */
  lemma {:induction false} FoldKeyOrder(ds: seq<Decoded>, minAmplitude: real)
    requires AllSized(ds)
    ensures Fold(Empty, ds, minAmplitude).index == FirstKeys(ds, minAmplitude)
    decreases |ds|
  {
    if ds != [] {
      var front := ds[..|ds| - 1];
      var d := ds[|ds| - 1];
      var t := Fold(Empty, front, minAmplitude);
      FoldKeyOrder(front, minAmplitude);
      if Dropped(d, minAmplitude) {
      } else if KeyOf(d) in t.index {
        AccumulateKnown(t, d);
      } else {
        AccumulateNew(t, d);
      }
    }
  }

  // ---------------------------------------------------------------- drain

  /** The row a drain writes for slot k: pulse, gain and pedestal are the
      sums divided by the count, pedestalVar is the mean squared pedestal
      minus the squared mean pedestal, nevt is the count, and bx and gainmask
      are 0. run and lumi are the values left in the branch buffers. */
  function AverageRow(t: Summed, k: nat, run: nat, lumi: nat): Row
    requires WellFormed(t) && k < |t.index|
  {
    var den := t.count[k] as real;
    var mean := t.pedestal[k].0 / den;
    Row(run, lumi, 0, t.index[k].id,
        seq(FrameSize, j requires 0 <= j < FrameSize => t.pulses[k][j] / den),
        seq(FrameSize, j requires 0 <= j < FrameSize => t.gains[k][j] / den),
        mean, t.pedestal[k].1 / den - mean * mean, 0, t.count[k])
  }

  /** A drained row carries the run and lumi, bx and gainmask 0, and the
      slot's id and count; each drained value times the count gives back the
      slot's sum, and pedestalVar is the mean of the squared pedestals minus
      the squared mean pedestal. */
  lemma AverageRowSums(t: Summed, k: nat, run: nat, lumi: nat)
    requires WellFormed(t) && k < |t.index|
    ensures var r := AverageRow(t, k, run, lumi);
      r.run == run && r.lumi == lumi && r.bx == 0 && r.gainmask == 0 &&
      r.id == t.index[k].id && r.nevt == t.count[k] &&
      (forall j | 0 <= j < FrameSize ::
        r.pulse[j] * r.nevt as real == t.pulses[k][j] && r.gain[j] * r.nevt as real == t.gains[k][j]) &&
      r.pedestal * r.nevt as real == t.pedestal[k].0 &&
      r.pedestalVar == t.pedestal[k].1 / r.nevt as real - r.pedestal * r.pedestal
  {
  }

  /** The rows of a drain: one per slot, in insertion order. */
  function AverageRows(t: Summed, run: nat, lumi: nat): (rs: seq<Row>)
    requires WellFormed(t)
    ensures |rs| == |t.index|
    ensures forall k | 0 <= k < |t.index| :: rs[k] == AverageRow(t, k, run, lumi)
  {
    seq(|t.index|, k requires 0 <= k < |t.index| => AverageRow(t, k, run, lumi))
  }

  /** Draining an empty table writes nothing. */
  lemma DrainEmpty(run: nat, lumi: nat)
    ensures AverageRows(Empty, run, lumi) == []
  {
  }

  /** Each drained pulse, gain and pedestal is the arithmetic mean of the
      values of the frames that reached that slot, and nevt is their number. */
  lemma DrainedMeans(ds: seq<Decoded>, minAmplitude: real, run: nat, lumi: nat, k: nat)
    requires AllSized(ds)
    requires k < |Fold(Empty, ds, minAmplitude).index|
    ensures var t := Fold(Empty, ds, minAmplitude);
      var ms := Matching(ds, t.index[k], minAmplitude);
      var r := AverageRows(t, run, lumi)[k];
      r.nevt == |ms| > 0 &&
      (forall j | 0 <= j < FrameSize :: r.pulse[j] == Sum(PulseColumn(ms, j)) / |ms| as real) &&
      (forall j | 0 <= j < FrameSize :: r.gain[j] == Sum(GainColumn(ms, j)) / |ms| as real) &&
      r.pedestal == Sum(Pedestals(ms)) / |ms| as real
  {
    FoldTallies(ds, minAmplitude);
    TallySums(Matching(ds, Fold(Empty, ds, minAmplitude).index[k], minAmplitude));
  }

  // ---------------------------------------------------------------- pedestal moments

  /** Sum of squared deviations of the pedestals from x. */
  function SqDeviation(ds: seq<Decoded>, x: real): real
    decreases |ds|
  {
    if ds == [] then 0.0
    else
      var y := ds[|ds| - 1].pedestal - x;
      SqDeviation(ds[..|ds| - 1], x) + y * y
  }

  lemma {:induction false} SqDeviationNonNegative(ds: seq<Decoded>, x: real)
    ensures SqDeviation(ds, x) >= 0.0
    decreases |ds|
  {
    if ds != [] {
      var y := ds[|ds| - 1].pedestal - x;
      SqDeviationNonNegative(ds[..|ds| - 1], x);
      assert y * y >= 0.0;
    }
  }

  /** The scalar part of one more contribution. */
  lemma TallyLast(ds: seq<Decoded>)
    requires AllSized(ds) && ds != []
    ensures Tally(ds).pedSum == Tally(ds[..|ds| - 1]).pedSum + ds[|ds| - 1].pedestal
    ensures Tally(ds).pedSqSum == Tally(ds[..|ds| - 1]).pedSqSum + Square(ds[|ds| - 1].pedestal)
  {
    assert Tally(ds) == Contribute(Tally(ds[..|ds| - 1]), ds[|ds| - 1]);
  }

  /** The sum of squared deviations about x of n values whose sum is s
      and whose sum of squares is q: q - 2xs + nx^2. */
  function Expansion(q: real, s: real, n: real, x: real): real {
    q - 2.0 * x * s + n * x * x
  }

  lemma ExpandStep(q: real, s: real, n: real, p: real, x: real, d0: real, d: real, q': real, s': real, n': real)
    requires d0 == Expansion(q, s, n, x)
    requires d == d0 + (p - x) * (p - x)
    requires q' == q + Square(p) && s' == s + p && n' == n + 1.0
    ensures d == Expansion(q', s', n', x)
  {
  }

  lemma {:induction false} SqDeviationExpand(ds: seq<Decoded>, x: real)
    requires AllSized(ds)
    ensures SqDeviation(ds, x) == Expansion(Tally(ds).pedSqSum, Tally(ds).pedSum, |ds| as real, x)
    decreases |ds|
  {
    if ds != [] {
      var front := ds[..|ds| - 1];
      SqDeviationExpand(front, x);
      TallyLast(ds);
      SqDeviationLast(ds, x);
      ExpandStep(Tally(front).pedSqSum, Tally(front).pedSum, |front| as real, ds[|ds| - 1].pedestal, x,
                 SqDeviation(front, x), SqDeviation(ds, x), Tally(ds).pedSqSum, Tally(ds).pedSum, |ds| as real);
    }
  }

  lemma SqDeviationLast(ds: seq<Decoded>, x: real)
    requires ds != []
    ensures SqDeviation(ds, x) == SqDeviation(ds[..|ds| - 1], x) + (ds[|ds| - 1].pedestal - x) * (ds[|ds| - 1].pedestal - x)
  {
  }

  /** The drained pedestal variance (the quantity under pedestal_rms's square
      root) is never negative in exact arithmetic. */
  lemma DrainedVarianceNonNegative(ds: seq<Decoded>, minAmplitude: real, run: nat, lumi: nat, k: nat)
    requires AllSized(ds)
    requires k < |Fold(Empty, ds, minAmplitude).index|
    ensures AverageRows(Fold(Empty, ds, minAmplitude), run, lumi)[k].pedestalVar >= 0.0
  {
    FoldTallies(ds, minAmplitude);
    assert Fold(Empty, ds, minAmplitude).index[k] in Fold(Empty, ds, minAmplitude).index;
    SlotVariance(Fold(Empty, ds, minAmplitude), Matching(ds, Fold(Empty, ds, minAmplitude).index[k], minAmplitude), k, run, lumi);
  }

  /** A slot holding the totals of a non-empty list of frames drains with a
      non-negative pedestal variance. */
  lemma SlotVariance(t: Summed, ms: seq<Decoded>, k: nat, run: nat, lumi: nat)
    requires WellFormed(t) && k < |t.index| && AllSized(ms) && ms != []
    requires EntryAt(t, k) == Tally(ms)
    ensures AverageRows(t, run, lumi)[k].pedestalVar >= 0.0
  {
    assert SqDeviation(ms, t.pedestal[k].0 / t.count[k] as real) >= 0.0 by {
      SqDeviationNonNegative(ms, t.pedestal[k].0 / t.count[k] as real);
    }
    assert t.count[k] as real > 0.0;
    SlotDeviation(t, ms, k);
    RowVariance(t, k, run, lumi);
    VarianceFromDeviation(t.count[k] as real, t.pedestal[k].0, t.pedestal[k].1,
                          SqDeviation(ms, t.pedestal[k].0 / t.count[k] as real),
                          AverageRows(t, run, lumi)[k].pedestalVar);
  }

  lemma RowVariance(t: Summed, k: nat, run: nat, lumi: nat)
    requires WellFormed(t) && k < |t.index|
    ensures AverageRows(t, run, lumi)[k].pedestalVar ==
      t.pedestal[k].1 / t.count[k] as real - (t.pedestal[k].0 / t.count[k] as real) * (t.pedestal[k].0 / t.count[k] as real)
  {
    var r := AverageRow(t, k, run, lumi);
    assert r.pedestal == t.pedestal[k].0 / t.count[k] as real;
  }

  /** The deviation sum of a slot's pedestals about their mean, in terms of
      the slot's count, sum and sum of squares. */
  lemma SlotDeviation(t: Summed, ms: seq<Decoded>, k: nat)
    requires WellFormed(t) && k < |t.index| && AllSized(ms) && ms != []
    requires EntryAt(t, k) == Tally(ms)
    ensures SqDeviation(ms, t.pedestal[k].0 / t.count[k] as real) ==
      Expansion(t.pedestal[k].1, t.pedestal[k].0, t.count[k] as real, t.pedestal[k].0 / t.count[k] as real)
  {
    assert t.count[k] == |ms|;
    assert t.pedestal[k].0 == Tally(ms).pedSum && t.pedestal[k].1 == Tally(ms).pedSqSum;
    SqDeviationExpand(ms, t.pedestal[k].0 / t.count[k] as real);
  }

  /** With m = s/n, the sum of squared deviations d = q - 2ms + nm^2 equals
      n (q/n - m^2), so q/n - m^2 is d/n and not negative. */
  lemma VarianceFromDeviation(n: real, s: real, q: real, d: real, v: real)
    requires n > 0.0 && d >= 0.0
    requires d == Expansion(q, s, n, s / n)
    requires v == q / n - (s / n) * (s / n)
    ensures v >= 0.0
  {
    var m := s / n;
    assert s == m * n;
    assert d == q - n * m * m;
    assert q / n - m * m == d / n;
  }

  /** A slot filled by a single frame has pedestal variance exactly 0. */
  lemma SingleFrameVariance(t: Summed, d: Decoded, run: nat, lumi: nat)
    requires WellFormed(t) && DecodedSized(d) && KeyOf(d) !in t.index
    ensures AverageRows(Accumulate(t, d), run, lumi)[|t.index|].pedestalVar == 0.0
  {
    AccumulateNew(t, d);
    FirstContribution(d);
  }
}
