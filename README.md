# PulseTree analyzer, modelled in Dafny

The PulseTree analyzer reads digitized ECAL frames event by event. Each frame is one channel's ten packed 16-bit samples. Each sample holds a 12-bit ADC amplitude in bits 0-11 and a 2-bit gain code in bits 12-13.

For every selected frame the analyzer decodes the samples into its branch buffers. It also builds a gain-usage mask and takes a pedestal: the mean of the first `nPedestalSamples` amplitudes. What happens next depends on the mode:

- **Raw mode.** One row per frame is written to the output tree.
- **Average mode.** A frame whose peak above its pedestal is below `minAmplitudeForAverage` is dropped. Every other frame is added to a table of accumulators. The table is kept as five parallel vectors and keyed by the channel id and the gain code of sample 0. At the end of the job the table is drained into one row per key: the means, the pedestal's second central moment, and the number of frames.

Events can be filtered on their bunch crossing, with an allow list and an invert flag.

Modules:

- `Samples` (samples.dfy): the frame and its decoding, as pure functions.
  - The bit fields.
  - The gain mask and its meaning.
  - The pedestal mean and its bounds.
  - The peak.
- `Output` (output.dfy): the row type of the output tree, and the raw-mode row of a decoded frame.
- `Accumulation` (accumulation.dfy): the averaging table as a value (`Summed`, the five vectors together).
  - Its invariant, `WellFormed`:
    - the vectors stay in lockstep;
    - every slot has ten sums;
    - every count is at least 1;
    - no key occurs twice.
  - One averaging step (`Step`) and the fold of a list of frames (`Fold`).
  - A reference definition: each slot holds the totals of exactly the undropped frames with its key (`Tallied`, `FoldTallies`).
  - The drain rows (`AverageRows`), with their meaning as means proved from that reference.
  - The pedestal moment, proved non-negative.
- `Stream` (stream.dfy): what frames do to the table and the rows, as functions.
  - Per frame, per list of frames, and for the lumi-boundary flush.
  - The lumi guard, with the proof that the flush is never due.
- `Analyzer` (analyzer.dfy): the class `PulseTree`.
  - Its fields are the configuration, the branch buffers (`tPulse`/`tGain` are arrays), the five table vectors, `oldLumi`, `seenLumis` and the output tree (`outTree`, a sequence of rows).
  - Its methods are the source's own operations: `FillDigi`, `FilterBx`, `Analyze`, `WriteAverageOutput` and `EndJob`.
  - Each method is split into small methods along the source's own steps. Each one is proved against the functions of the modules above.

The lumi-boundary flush is modelled as the code is written.

- `old_lumi` starts at 0 and is assigned only inside the branch that its own guard `old_lumi != 0` protects. So the branch never runs, and the table is drained only at the end of the job.
- `FlushNeverDue` proves this for every stream of lumis. `Analyze` proves that it keeps `oldLumi` at 0 and never flushes.
- `FlushNeedsOldLumi` shows the guard alone is what keeps the flush off.
- So turning on `splitByLumi` never splits the output: the table is drained only at the end of the job.
- `seen_lumis` is never appended to, so it is a constant empty sequence here.

Amplitudes and gains stay in the float buffers as the exact reals of their integer values. Pedestals, sums and means are exact `real`s.

## Model

| member | source | states |
|---|---|---|
| Samples.FieldsRepack | PulseTree/plugins/PulseTree.cc:208-209 | the amplitude field (bits 0-11) and the gain field (bits 12-13) do not overlap, and together they give back the sample with its top two bits cleared |
| Samples.Amplitude | PulseTree/plugins/PulseTree.cc:208 | the amplitude of a sample lies in [0, 4095] |
| Samples.GainId | PulseTree/plugins/PulseTree.cc:209 | the gain code of a sample lies in [0, 3] |
| Samples.Pulses | PulseTree/plugins/PulseTree.cc:207-208 | the pulse buffer holds one value per sample |
| Samples.Gains | PulseTree/plugins/PulseTree.cc:207-209 | the gain buffer holds one value per sample |
| Samples.GainBitValue | PulseTree/plugins/PulseTree.cc:210 | the mask bit `1 << g` of gain codes 0, 1, 2, 3 is 1, 2, 4, 8 |
| Samples.HasGainOr | PulseTree/plugins/PulseTree.cc:210 | or-ing in the bit of gain h sets the bit of h, leaves the bits of the other gain codes as they were, and keeps a mask of at most 15 within 15 |
| Samples.GainMask | PulseTree/plugins/PulseTree.cc:205-211 | the mask built sample by sample is at most 15, and it is non-zero for a non-empty frame |
| Samples.GainMaskUses | PulseTree/plugins/PulseTree.cc:205-211 | bit g of the mask is set exactly when some sample carries gain code g |
| Samples.DecodeGainMask | PulseTree/plugins/PulseTree.cc:205-211 | a decoded frame's mask records exactly the gain codes its ten samples use |
| Samples.Decode | PulseTree/plugins/PulseTree.cc:204-215 | a decoded frame keeps the frame's id, has ten pulses and ten gains, and has a mask in 1..15 |
| Samples.DecodeFields | PulseTree/plugins/PulseTree.cc:204-215 | each pulse is the sample's bits 0-11, in [0, 4095]; each gain is its bits 12-13, in [0, 3]; the pedestal is the mean of the first n pulses and lies in [0, 4095] |
| Samples.DecodeExample | PulseTree/plugins/PulseTree.cc:207-215 | ten samples 0x1064 decode to amplitude 100 and gain 1 everywhere, mask 0b10, and pedestal 100 |
| Samples.Mean | PulseTree/plugins/PulseTree.cc:213-215 | the pedestal is the value that, times n, gives the sum of the first n pulses |
| Samples.MeanBounds | PulseTree/plugins/PulseTree.cc:213-215 | the mean of values in [lo, hi] lies in [lo, hi] |
| Samples.Peak | PulseTree/plugins/PulseTree.cc:224 | the peak of the pulses is one of them and no pulse exceeds it |
| Samples.DecodeAll | PulseTree/plugins/PulseTree.cc:191 | decoding a list of frames decodes each frame, in order |
| Samples.DecodeAllAppend | PulseTree/plugins/PulseTree.cc:188-197 | decoding the barrel frames followed by the endcap frames gives the two decodings concatenated |
| Output.RawRows | PulseTree/plugins/PulseTree.cc:220-221 | raw mode writes one row per decoded frame, in order, each carrying that frame's values |
| Output.RawRowCarried | PulseTree/plugins/PulseTree.cc:220-221 | a raw row (`RawRow`) gives back exactly the decoded frame it was made from, with the event's run, lumi and bx, and pedestal_rms and nevt 0 |
| Accumulation.KeyOfDecoded | PulseTree/plugins/PulseTree.cc:225 | the key (`KeyOf`) of a decoded frame, read back from the float gain buffer, is its id and the gain code of its sample 0 |
| Accumulation.DroppedIffAllBelow | PulseTree/plugins/PulseTree.cc:224 | a frame is dropped (`Dropped`) exactly when every sample lies less than the minimum amplitude above its pedestal |
| Accumulation.AppendZeroSlot | PulseTree/plugins/PulseTree.cc:228-232 | the push_backs (`AppendZero`) keep the five vectors in lockstep, put the new key last with zero sums and count 0, and leave every earlier slot unchanged |
| Accumulation.AddAtSlot | PulseTree/plugins/PulseTree.cc:235-241 | the additions at slot idx (`AddAt`) give that slot one more contribution (`Contribute`) and change no key and no other slot |
| Accumulation.TallySums | PulseTree/plugins/PulseTree.cc:236-240 | contributions (`Contribute`) accumulated frame by frame give the plain sums: each pulse and gain total is the sum of that sample over the frames, and the pedestal totals are the sums of the pedestals and of their squares |
| Accumulation.FoldKeyOrder | PulseTree/plugins/PulseTree.cc:225-234 | from an empty table, the slot keys are those of the undropped frames, each once, in the order of their first undropped frame, which is the order the drain writes them |
| Accumulation.Find | PulseTree/plugins/PulseTree.cc:226 | the linear find returns the first position holding the key, or the length of the index when no position holds it |
| Accumulation.OpenSlot | PulseTree/plugins/PulseTree.cc:227-234 | after the append of a zero slot for a missing key, the find locates a slot of ten sums for the key |
| Accumulation.Accumulate | PulseTree/plugins/PulseTree.cc:225-241 | adding a frame keeps the table well-formed: the five vectors stay in lockstep, the keys stay distinct, and every count is at least 1 |
| Accumulation.AccumulateNew | PulseTree/plugins/PulseTree.cc:227-241 | a frame with a new key appends that key at the end of the index; its slot holds exactly that frame's pulses, gains, pedestal, squared pedestal and a count of 1; the other slots are unchanged |
| Accumulation.AccumulateKnown | PulseTree/plugins/PulseTree.cc:225-241 | a frame with a known key leaves the index as it is and adds its contribution, plus 1 to the count, to that key's slot and to no other |
| Accumulation.FirstContribution | PulseTree/plugins/PulseTree.cc:229-241 | adding a frame to a zero slot gives that frame's own values and a count of 1 |
| Accumulation.Step | PulseTree/plugins/PulseTree.cc:224-241 | one averaging step keeps the table well-formed, whether the frame is dropped or added |
| Accumulation.Fold | PulseTree/plugins/PulseTree.cc:191-196 | folding a list of frames keeps the table well-formed |
| Accumulation.FoldAppend | PulseTree/plugins/PulseTree.cc:188-197 | folding the barrel frames and then the endcap frames is folding their concatenation |
| Accumulation.TalliedDropped | PulseTree/plugins/PulseTree.cc:224 | a dropped frame leaves the table as it is, and the table still holds exactly the totals of the frames that reached each slot |
| Accumulation.TalliedExisting | PulseTree/plugins/PulseTree.cc:225-241 | an undropped frame with a known key keeps the table equal to the per-key totals of the frames seen so far |
| Accumulation.TalliedNew | PulseTree/plugins/PulseTree.cc:227-241 | an undropped frame with a new key keeps the table equal to the per-key totals of the frames seen so far |
| Accumulation.TalliedStep | PulseTree/plugins/PulseTree.cc:224-241 | every averaging step preserves the reference invariant that each slot holds exactly the totals of its undropped frames |
| Accumulation.FoldTallies | PulseTree/plugins/PulseTree.cc:224-241 | from an empty table, folding any list of frames gives exactly one slot per key carried by an undropped frame; each slot holds the totals of exactly those frames |
| Accumulation.AverageRowSums | PulseTree/plugins/PulseTree.cc:255-267 | a drained row (`AverageRow`) carries the run and lumi, bx and gainmask 0, and the slot's id; nevt is the slot's count; each drained pulse, gain and pedestal times nevt is the slot's sum; pedestalVar is the mean squared pedestal minus the squared mean pedestal |
| Accumulation.AverageRows | PulseTree/plugins/PulseTree.cc:258-268 | the drain writes one row per slot, in insertion order |
| Accumulation.DrainEmpty | PulseTree/plugins/PulseTree.cc:258 | draining an empty table writes no row |
| Accumulation.DrainedMeans | PulseTree/plugins/PulseTree.cc:258-268 | after any list of frames, each drained row's nevt is the positive number of undropped frames of its key; each pulse, gain and the pedestal is the plain sum of that value over those frames divided by their number |
| Accumulation.SqDeviationExpand | PulseTree/plugins/PulseTree.cc:240 | the sum of squared deviations of the pedestals about x is the squared-pedestal sum minus 2x times the pedestal sum plus n times x squared |
| Accumulation.DrainedVarianceNonNegative | PulseTree/plugins/PulseTree.cc:265 | the quantity under pedestal_rms's square root is never negative for a table built by averaging, in exact arithmetic |
| Accumulation.SlotVariance | PulseTree/plugins/PulseTree.cc:265 | a slot holding the totals of a non-empty list of frames drains with a non-negative pedestal variance |
| Accumulation.SingleFrameVariance | PulseTree/plugins/PulseTree.cc:227-241 | a slot filled by one frame drains with a pedestal variance of exactly 0 |
| Stream.FillStep | PulseTree/plugins/PulseTree.cc:220-242 | in average mode a frame writes no row; in raw mode it leaves the table alone and writes exactly one row |
| Stream.FillSteps | PulseTree/plugins/PulseTree.cc:186-197 | filling a list of frames in order keeps the table well-formed |
| Stream.FillStepsRaw | PulseTree/plugins/PulseTree.cc:220-221 | in raw mode a list of frames leaves the table unchanged and appends one row per frame, in order, carrying the frame's decoded values |
| Stream.FillStepsAverage | PulseTree/plugins/PulseTree.cc:224-241 | in average mode a list of frames writes nothing and folds the decoded frames into the table |
| Stream.FillStepsAppend | PulseTree/plugins/PulseTree.cc:188-197 | filling the barrel frames and then the endcap frames is filling their concatenation |
| Stream.Flush | PulseTree/plugins/PulseTree.cc:177-182 | the flush empties the table and writes one row per slot it held |
| Stream.NextOldLumi | PulseTree/plugins/PulseTree.cc:173-183 | old_lumi changes only when the flush is due, and then it takes the event's lumi |
| Stream.FlushDueOff | PulseTree/plugins/PulseTree.cc:173 | the flush guard (`FlushDue`) is off when splitting is off, when the lumi is the remembered one, and while old_lumi is 0 |
| Stream.BoundaryIdle | PulseTree/plugins/PulseTree.cc:173-184 | while old_lumi is 0, the lumi check (`Boundary`) leaves the table and the rows as they are |
| Stream.FlushNeverDue | PulseTree/plugins/PulseTree.cc:123-184 | starting from old_lumi = 0, old_lumi stays 0 for every stream of lumis, and the flush is due at none of its events |
| Stream.FlushNeedsOldLumi | PulseTree/plugins/PulseTree.cc:173 | with split mode on, a non-zero old_lumi and a new lumi, the flush would be due and old_lumi would move to the new lumi |
| Analyzer.DefaultsAccepted | PulseTree/plugins/PulseTree.cc:119-143 | the default parameters are accepted by the constructor: a three-sample pedestal, raw mode without lumi splitting, both collections, and no bx filter |
| Analyzer.PulseTree.constructor | PulseTree/plugins/PulseTree.cc:119-144 | parameters are taken as given; split mode requires average mode; bx filtering is on exactly when the list is non-empty; old_lumi is 0, seen_lumis is empty, the table and output are empty, the two sample buffers are newly allocated, and the object invariant holds |
| Analyzer.PulseTree.Selected | PulseTree/plugins/PulseTree.cc:188-197 | when both collections hold ten-sample frames, so does the selection of the enabled ones |
| Analyzer.PulseTree.PassesRule | PulseTree/plugins/PulseTree.cc:247-250 | with an empty bx list every event passes (`Passes`); otherwise an event passes exactly when being listed and inverting disagree |
| Analyzer.PulseTree.FilterBx | PulseTree/plugins/PulseTree.cc:247-250 | a listed bunch crossing is kept unless the selection is inverted, and an unlisted one is kept only if it is |
| Analyzer.PulseTree.DecodeSamples | PulseTree/plugins/PulseTree.cc:204-211 | the sample loop leaves the id, the ten amplitudes, the ten gain codes and the gain mask of the frame in the buffers |
| Analyzer.PulseTree.ComputePedestal | PulseTree/plugins/PulseTree.cc:213-215 | the pedestal loop leaves the mean of the first nPedestalSamples pulses in the pedestal buffer |
| Analyzer.PulseTree.DecodeIntoBuffers | PulseTree/plugins/PulseTree.cc:204-218 | the buffers hold the decoded frame, with pedestal_rms and nevt zeroed |
| Analyzer.PulseTree.AddToSums | PulseTree/plugins/PulseTree.cc:235-241 | the slot's pulse and gain sums, its pedestal and squared-pedestal sums, and its count receive the buffered frame, and nothing else changes |
| Analyzer.PulseTree.AddToSlot | PulseTree/plugins/PulseTree.cc:225-241 | the five vectors become the table with the buffered frame accumulated under its (id, gain of sample 0) key, and the object invariant is preserved |
| Analyzer.PulseTree.AverageBuffered | PulseTree/plugins/PulseTree.cc:224-241 | a frame below the threshold leaves the five vectors unchanged, and any other frame is accumulated |
| Analyzer.PulseTree.WriteRaw | PulseTree/plugins/PulseTree.cc:220-221 | one row is appended with the event's run, lumi and bx and the buffered frame's values |
| Analyzer.PulseTree.FillDigi | PulseTree/plugins/PulseTree.cc:202-244 | the buffers hold the decoded frame; in average mode the table takes one averaging step and nothing is written; in raw mode the table is unchanged and exactly the frame's row is appended |
| Analyzer.PulseTree.FillDigis | PulseTree/plugins/PulseTree.cc:191 | the loop over one collection gives the table and the rows of filling its frames in order |
| Analyzer.PulseTree.FillEvent | PulseTree/plugins/PulseTree.cc:186-197 | the table and the rows are those of filling the enabled barrel frames and then the enabled endcap frames |
| Analyzer.PulseTree.FlushLumi | PulseTree/plugins/PulseTree.cc:177-183 | the table is drained into the output and emptied, old_lumi takes the event's lumi, and bx is 0 |
| Analyzer.PulseTree.FlushIfDue | PulseTree/plugins/PulseTree.cc:173-184 | the state is flushed exactly when the guard holds, and old_lumi moves only then |
| Analyzer.PulseTree.FillAccepted | PulseTree/plugins/PulseTree.cc:173-197 | an accepted event takes the lumi check, then fills its selected frames |
| Analyzer.PulseTree.Analyze | PulseTree/plugins/PulseTree.cc:164-199 | an event rejected by the bx filter changes neither the table nor the output; an accepted one takes the lumi check and fills its frames; while old_lumi is 0 it stays 0, and an accepted event only fills its frames and never flushes |
| Analyzer.PulseTree.LoadSlot | PulseTree/plugins/PulseTree.cc:259-267 | the buffers hold slot idx's drain row: sums over count, the pedestal moment, the id and the count, with bx and gainmask 0 |
| Analyzer.PulseTree.WriteSlot | PulseTree/plugins/PulseTree.cc:258-268 | one iteration of the drain appends exactly slot idx's row |
| Analyzer.PulseTree.WriteAverageOutput | PulseTree/plugins/PulseTree.cc:253-271 | the drain appends exactly one row per slot, in insertion order, leaves the table unchanged, and leaves bx and gainmask at 0 |
| Analyzer.PulseTree.EndJob | PulseTree/plugins/PulseTree.cc:281-286 | in average mode the table is drained once at the end of the job; in raw mode nothing is written; the table is unchanged |

Calling `WriteAverageOutput` twice writes the same rows twice. This follows from its contract: the table, run and lumi are left as they are, and the rows are a function of those.

## Left out

- ROOT and CMSSW plumbing is not modelled:
  - `TFileService`;
  - the creation of the tree and the choice of which branches it gets;
  - `edm::Event` access and `getByToken` retrieval;
  - `fillDescriptions`;
  - `DEFINE_FWK_MODULE`.

  Events come in as their run, lumi, bunch crossing and two lists of frames. The output tree is a sequence of rows carrying every column.
- ParameterSet parsing: the configuration is a constructor argument, with `Defaults` recording the default values.
- Analyzer.PulseTree.constructor: requires `0 < nPedestalSamples <= 10`, which the source does not check. With 0, the pedestal is a float division by zero. With more than 10, the pedestal loop reads past the ten-sample buffer.
- The `std::cout` warning for a lumi seen before is console I/O, and its branch never runs.
- pedestal_rms: the model keeps the quantity under the square root (`pedestalVar`). `std::sqrt` is left out.
- Float and double rounding, including `float(count)` as the divisor, is not modelled. All sums and means are exact reals.
- The source narrows `t_lumi`, `t_bx`, `old_lumi` and `t_gainmask` to `UShort_t`, and the key's gain to `UShort_t`. These narrowings are not modelled. Run, lumi, bunch crossing and id are unbounded naturals.
- The initial contents of the branch buffers are not modelled. The source leaves them uninitialized; the model starts them at 0.
- Analyzer.PulseTree.Analyze: does not state which values the branch buffers are left holding after an event, beyond run, lumi and bx.
- Analyzer.PulseTree.WriteAverageOutput: does not state the final buffer contents.
- Samples.Pulses and Samples.Gains: the per-sample meaning of these is stated by `Samples.DecodeFields` rather than by their own contracts.
