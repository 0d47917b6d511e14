# Verified models of the ALSA plugins

The ALSA plugins package holds sample-rate converters, encoders, network talkers and mixers that plug into
the PCM interface.  What they have in common is state kept between calls whose sizes the caller chooses.
This project models that state and proves, for each component, that the division into calls does not
show: what comes out is one function of the whole input stream.

- **Resampler** (`pph/resample.c`): `ResamplerStream` is the reference, one convolution over a whole stream with
  positions counted in exact integers; `ResamplerResize` adds live changes of filter length, `ResamplerSession`
  sessions of calls, filter changes and rate changes, and `ResamplerLockstep` interleaved channels.
  `ResamplerResponse` says what a single sample becomes. `ResamplerFilter`, `ResamplerKernels`, `ResamplerTables`,
  `ResamplerMemory`, `ResamplerCalls` and `ResamplerChannels` are the loops and in-place moves over the flat sample
  memory, and `Resampler.State` is the object with its arrays.
- **A52 output** (`a52/pcm_a52.c`): `A52.Plugin`, one block being filled, one burst being written.
- **Circular list** (`maemo/list.h`): `CircularList`, on heap nodes.
- **Arcam reader** (`arcam-av/arcam_av.c`): `Arcam`, the framing automaton and the reader that keeps its state.
- **AAF talker** (`aaf/pcm_aaf.c`): `Talker`, the schedule of PDUs.  The transport is IEEE 1722; transit time
  and uncertainty are those of its section 4.3.3.
- **Virtual down-mixer** (`mix/pcm_vdownmix.c`), **up-mixer delay** (`mix/pcm_upmix.c`), **speex block buffer**
  (`speex/pcm_speex.c`): `Downmix`, `Upmix`, `SpeexBlocks`.
- **Number theory**: `Gcd` (`rate-lav/gcd.h` and the ratio reduction of `pph/resample.c`) and `RateFrames`
  (`pph/rate_speexrate.c`).
- `Division`, `Buffers` and `Wrappers` hold what the modules share: integer division, writing into buffers, options.

Samples of the resampler are `real`, and every number the original computes in floating point is a given
function (`ResamplerFilter.Numerics`).  No law of arithmetic on samples is used, so the results hold for every
rounding.  Sizes and counts are unbounded integers; a machine width is written out where a result depends
on it (`A52.UnsignedExact`, `Downmix.Headroom`, `Talker.TimestampRecovered`, sequence numbers).  Encoders, DSP
functions, sockets, timers and serial ports are parameters: functions of their whole history, or scripts of
answers.

## What the proofs brought to light

- Channels of an interleaved resampler call can come apart.  The length argument is passed on from one
  channel to the next (pph/resample.c:979-981), so when up-sampling stops on a full output buffer, the second
  channel may be offered fewer samples than it needs.  `ResamplerLockstep.Lockstep` says exactly when channels
  stay together; `UpSamplingSplitsChannels` is a two-channel example.  The counts that come back are the last
  channel's, so outputs of the first one are lost, and `Unclean` says how many.  Down-sampling is always safe, and
  while channels stay together none of them feels the others (`RunAlone`).
- The A52 pointer callback reduces a possibly negative difference with an unsigned modulus.  The result is the
  played position if and only if the difference is not negative or the boundary divides the word
  (`A52.UnsignedExact`, `A52.Plugin.Pointer`); `A52.WrongPosition` is a run to a case with 64-bit words.
- Frames of an A52 transfer go unreported if and only if they completed a block and the encoder failed on that
  block (a52/pcm_a52.c:391-398): `A52.FillSound` and `TransferredSound`, with `A52.FailingStep` as an example.  A
  block that is left over from such a failure makes the next transfer take nothing (`A52.Plugin.Transfer`).
- The Arcam reader can miss a reply behind noise: exactly when the noise leaves it where any byte is accepted
  (`Arcam.BehindNoise`, with `Arcam.ReplyLost` as an example).  It misses one reply at most (`Arcam.Mixture`).  Its
  early return hands out minus the error on record, so a call that ends without a message returns success if and
  only if no error is on record (`Arcam.Receiver.Receive`, with `Arcam.SilentSuccess` as an example).
- The AAF media clock keeps the pace of the sample rate if and only if a period is a whole number of nanoseconds
  (`Talker.ClockKeepsPace`).  At 44100 Hz these are the periods of a multiple of 441 frames (`Talker.PaceAt44100`);
  with 256 frames it slips at the second tick (`Talker.ClockSlips`).  A listener rejects a PDU inside its tolerance
  when the 32-bit timestamp wrapped between expectation and arrival (`Talker.ExpectedWithinTurn`,
  `Talker.RefusedBehindTurn`).
- A change of the resampler's ratio may put its outputs early by less than one step of the new grid, because the
  fraction is rounded down (pph/resample.c:1026).  It leaves them where they were if and only if the old fraction is
  a point of the new grid (`ResamplerSession.RetunedDue`, with `RateChangeEarly` as an example).  Nothing else ever
  adds up (`ResamplerSession.SessionOnTime`).
- Default taps of the down-mixer add up to 139566, so its 32-bit accumulator is safe for samples up to 15386
  and for no larger bound (`Downmix.DefaultHeadroom`); full-scale input can overflow it before it is clipped.
- The frame-count round trip does not need a reduced ratio (`RateFrames.RoundTrip`).

## Model

| member | source | states |
|---|---|---|
| ResamplerStream.CountExact | pph/resample.c:319-350 | output i exists before sample t of the stream if and only if the window of output i starts below t: the loop guard and the carry arithmetic in closed form |
| ResamplerStream.ProcessStreams | pph/resample.c:774-827 | a call treats queued samples and new input as one stream: queue first, once and in order, also when the output fills up inside the queue |
| ResamplerStream.Streaming | pph/resample.c:774-827 | over any run of calls, any capacities and unconsumed input presented again, the outputs are the first ones of one convolution over history, queue and input; nothing is lost or repeated; the position moves by exactly num per output |
| ResamplerStream.SplitIndependence | pph/resample.c:774-827 | two ways of cutting a stream never disagree: the shorter output is a prefix of the longer, and both of the whole convolution |
| ResamplerStream.OutputCount | pph/resample.c:319-350 | while output is never the limit, the number of outputs depends only on how many samples were consumed |
| ResamplerResize.ResizeKeepsCentre | pph/resample.c:639-700 | in all three branches a change of filter length leaves the window centre and the fraction where they were |
| ResamplerResize.ResizeKeepsSamples | pph/resample.c:652-681 | history and queue afterwards are the old ones with only the oldest dropped or zeros in front |
| ResamplerResize.ResizeFits | pph/resample.c:644-648 | filter length plus twice the queue stays within the allocation plus one |
| ResamplerResize.FeedOutputs | pph/resample.c:319-350 | every output of a call is the kernel in force centred on the input stream, num den-ths after the one before |
| ResamplerResize.ResizeRepresents | pph/resample.c:639-700 | after a change of length a channel still holds the most recent samples of the stream, silent where a longer filter has no data |
| ResamplerResize.RescaledExact | pph/resample.c:1022-1031 | the rescaled fraction is the old one rounded down and below the new denominator; the safety net is never used |
| ResamplerSession.RetunedDue | pph/resample.c:1022-1034 | a change of filter and ratio moves the next output back by less than one step of the new grid, and leaves it where it was if and only if the old fraction is a point of the new grid: the guard is frac * new den % old den == 0 |
| ResamplerSession.RateChangeEarly | pph/resample.c:1022-1031 | going from twice to three times the rate at half a sample moves the next output from a half to a third |
| ResamplerSession.SessionOnTime | pph/resample.c:639-1036 | over any session of calls, filter changes and rate changes, every output is the kernel in force centred on the input where a clock advancing by the ratio in force puts it, early by at most one step of the new grid for each change of denominator: no drift, skip or repetition |
| ResamplerLockstep.Lockstep | pph/resample.c:970-986 | channels that start equal end an interleaved call equal, with equal counts, if and only if the first channel's call is clean |
| ResamplerLockstep.DownSamplingIsClean | pph/resample.c:970-986 | with num >= den every call is clean |
| ResamplerLockstep.ConsumingAllIsClean | pph/resample.c:970-986 | so is every call in which channel 0 consumes all its input |
| ResamplerLockstep.UpSamplingSplitsChannels | pph/resample.c:970-986 | a call at the lowest quality and twice the rate, on channels as initialised, after which two channels differ |
| ResamplerLockstep.ResizeTogether | pph/resample.c:639-700 | a change of filter length keeps equal channels equal |
| ResamplerLockstep.InterleaveAt | pph/resample.c:978-982 | channel i is offered what channel i - 1 consumed, never more than the call was given |
| ResamplerLockstep.Alone | pph/resample.c:970-986 | a clean call does to every channel exactly what a call on that channel alone, offered all its input, would do |
| ResamplerLockstep.RunAlone | pph/resample.c:970-986 | over any run of clean interleaved calls, the caller going by the counts that come back, every channel gives the outputs of a run on its own stream |
| ResamplerLockstep.Unclean | pph/resample.c:970-986 | in a call that is not clean the first channel fills its output while all the others emit the smaller number that is reported, all consuming the same; the first channel is ahead by exactly the outputs that are lost |
| ResamplerFilter.LengthExact | pph/resample.c:542-551 | the filter length is the largest multiple of four not above base * num / den when down-sampling, and the base length otherwise |
| ResamplerFilter.OversampleExact | pph/resample.c:552-565 | down-sampling by more than 2, 4, 8 or 16 divides the oversampling by as much, never below one; the direct table is used exactly while there are no more phases than that |
| ResamplerFilter.CellInTable | pph/resample.c:329-336 | every index into the direct table is inside it |
| ResamplerFilter.OffsetBound | pph/resample.c:424 | the interpolation offset stays below the oversampling factor |
| ResamplerFilter.SpreadCellInTable | pph/resample.c:436-450 | every index into the interpolated table is inside it, all four lanes and guard entries included |
| ResamplerResponse.TapImpulse | pph/resample.c:321-453 | a single value under tap i of a window gives its product with the direct coefficient of that phase and tap, or the interpolation of the four entries from (i + 1) * oversample - offset - 2 on, and zero outside the window |
| ResamplerResponse.EntriesAround | pph/resample.c:418-439 | those entries stand around the point that the direct table has its coefficient for, which lies between the second and the third, behind the third by exactly the remainder given to the interpolation |
| ResamplerResponse.RunImpulse | pph/resample.c:319-827 | over any run of calls on a stream with a single value, every output is the response at its own phase and tap |
| ResamplerResponse.CentredImpulse | pph/resample.c:319-701 | in a session an output has, on each audible sample, the tap that stands for the time between them, whatever the filter length |
| ResamplerKernels.DirectWindow | pph/resample.c:321-338 | the two inner loops accumulate the taps over history then input in one order, whatever the split between them |
| ResamplerKernels.SpreadWindow | pph/resample.c:415-453 | the same for the four interpolated accumulators |
| ResamplerKernels.Advance | pph/resample.c:343-349 | one step of sample and fraction moves the position by exactly num, and the fraction stays below den |
| ResamplerKernels.RunKernel | pph/resample.c:319-353 | the output loop writes the reference convolution of history and input and stops exactly at capacity or end of input |
| ResamplerMemory.PushHistory | pph/resample.c:821-824 | after a call the history is the last samples of history and consumed input, also when the input is the queue behind the history |
| ResamplerMemory.GrowChannel | pph/resample.c:649-682 | the in-place moves for a longer filter give the reference result in the channel's new place and touch nothing outside it |
| ResamplerMemory.ShrinkChannel | pph/resample.c:688-698 | the in-place move for a shorter filter gives the reference result and touches nothing outside the channel |
| ResamplerCalls.RunCall | pph/resample.c:774-827 | one call, recursion for the queue included, terminates and is the reference call on the channel stored in the memory |
| ResamplerCalls.DrainQueue | pph/resample.c:785-811 | feeding the queue and moving its rest to the front is the reference call on the queued samples |
| ResamplerChannels.GrowAll | pph/resample.c:639-683 | moving all channels to a larger stride, last channel first, never overwrites data still to be read: every channel is resized exactly |
| ResamplerChannels.ShrinkAll | pph/resample.c:684-700 | the same for a shorter filter |
| ResamplerChannels.ReshapeMemory | pph/resample.c:620-701 | the whole memory update: silence before the first call, exact resizing afterwards, room for every channel |
| ResamplerTables.FillDirect | pph/resample.c:578-585 | every phase and tap has its coefficient in its place |
| ResamplerTables.BuildTable | pph/resample.c:567-615 | the table is long enough and filled for the design, reallocated only when too short |
| Resampler.UpdatedTogether | pph/resample.c:620-701 | the memory update keeps equal channels equal, started or not |
| Resampler.ReratedTogether | pph/resample.c:1022-1034 | so does a change of rate, fractions included |
| Resampler.InterleavedTogether | pph/resample.c:970-986 | a clean interleaved call keeps equal channels equal |
| Resampler.State.ChannelsValid | pph/resample.c:343-352 | in every valid state each channel has a full history and its fraction is below den_rate |
| Resampler.State.ProcessNative | pph/resample.c:774-827 | keeps the invariant; one channel goes through the reference call, the others and the rest of the output stay |
| Resampler.State.RunChannel | pph/resample.c:774-827 | any run of calls on a channel is the reference run |
| Resampler.State.ConvolveChannel | pph/resample.c:774-827 | the outputs of any run of calls are the first outputs of one convolution over the whole stream |
| Resampler.State.ProcessInt | pph/resample.c:895-915 | gathering, converting and scattering one channel writes that channel's places only |
| Resampler.State.ProcessInterleaved | pph/resample.c:970-986 | the channel loop is the reference interleaving, every output in its place, counts those of the last channel |
| Resampler.FrameByFrame | pph/resample.c:895-986 | sample k of channel ch is read from and written to place k * channels + ch |
| Resampler.State.UpdateFilter | pph/resample.c:536-702 | table, lengths and memory fit the new setting, and every channel is resized or silenced |
| Resampler.State.SetQuality | pph/resample.c:1044-1054 | refuses values outside 0..10, otherwise resizes every channel unless nothing changes, and keeps equal channels equal |
| Resampler.State.SetRateFrac | pph/resample.c:999-1036 | the ratio is divided by its gcd, fractions are rescaled, every channel is resized, equal channels stay equal, the invariant holds |
| Resampler.State.SkipZeros | pph/resample.c:1081-1087 | every channel starts half a filter length into its input |
| Resampler.State.InitFrac | pph/resample.c:709-760 | an error and no state for a quality outside 0..10, otherwise a valid state with silent channels and the ratio in lowest terms |
| Resampler.State.ProcessTogether | pph/resample.c:970-986 | on the object, channels that are equal before a clean interleaved call are equal after it, each as after a call of its own; after a call that is not clean the reported count is less than the first channel's |
| Resampler.State.RunSession | pph/resample.c:774-1054 | on the object, any session of calls, quality changes and rate changes gives the outputs of the reference session with the filters of the settings that the requests select, and ends in its state and in the last of these settings |
| Resampler.State.Session | pph/resample.c:774-1054 | with that, every output of a session is the filter in force on the input stream, on time up to the rounding of rate changes |
| Resampler.State.FromSilence | pph/resample.c:620-1054 | any events on a resampler that has heard nothing: changes before the first input only choose the setting, and from there on it is a session on the stream from its beginning |
| Resampler.State.FromInit | pph/resample.c:709-1054 | the same from speex_resampler_init_frac on, or its error |
| Gcd.BinaryGcd | rate-lav/gcd.h:25-55 | returns the greatest common divisor of any two non-negative numbers, zeros included |
| Gcd.GcdUnique | rate-lav/gcd.h:25-55 | there is only one greatest common divisor, so the result is determined |
| Gcd.SubtractStep | rate-lav/gcd.h:40-52 | one turn of the loop keeps a odd, gets smaller, and keeps the gcd |
| Gcd.ReduceRatio | pph/resample.c:1013-1020 | trial division terminates, leaves coprime numbers and divides both by the gcd, though its bound shrinks |
| Gcd.CofactorIsGcd | pph/resample.c:1013-1020 | if what is left is coprime, what was divided out is the gcd |
| RateFrames.Nearest | pph/rate_speexrate.c:48-66 | a count is the result if and only if it is the nearest to the exact quotient |
| RateFrames.RoundTrip | pph/rate_speexrate.c:48-66 | scaling there and back is the identity on all counts if and only if the first factor is not the smaller |
| RateFrames.OutputRoundTrip | pph/rate_speexrate.c:48-66 | output_frames(input_frames(f)) is f for every f if and only if num >= den |
| RateFrames.InputRoundTrip | pph/rate_speexrate.c:48-66 | input_frames(output_frames(f)) is f for every f if and only if den >= num |
| A52.Plugin.WriteOutPending | a52/pcm_a52.c:208-227 | writes until the burst is out or the slave first refuses, and returns that refusal exactly if it is an error; written and pending frames together do not change |
| A52.WrittenOutOrRefused | a52/pcm_a52.c:208-227 | writing stops no sooner than all is written or the slave refuses; what is left is the burst less what was taken, and the refusal is returned unless it only says busy |
| A52.Plugin.ConvertData | a52/pcm_a52.c:176-205 | a full block becomes a burst, or nothing changes when the encoder fails; called with nothing pending |
| A52.AnswerCarried | a52/pcm_a52.c:176-205 | every answer of the encoder that fits is in the bursts, in its turn: its frames, then zeros up to the burst size |
| A52.Plugin.AnswerWritten | a52/pcm_a52.c:176-227 | what the slave got of each burst is the encoder's answer to the block of accepted frames at the same place, and zeros behind it |
| A52.Plugin.FillData | a52/pcm_a52.c:296-399 | is the reference: an error of the slave takes nothing; otherwise as many frames as are given or fit, one fewer while a burst is pending; a full block goes to the encoder, only with nothing pending |
| A52.Plugin.TransferStep | a52/pcm_a52.c:415-422 | one turn is the reference fill; every frame taken is behind those before, and those not reported are counted; no frame is reported only for one of four reasons |
| A52.FillSound | a52/pcm_a52.c:296-399 | frames are taken and not reported if and only if they completed a block on which the encoder failed; a left-over block lets none in; nothing is reported only for one of four reasons |
| A52.FillReturns | a52/pcm_a52.c:296-399 | returns the slave's error, else the encoder's, else the number of frames taken |
| A52.TransferredSound | a52/pcm_a52.c:404-425 | the same of a whole transfer: it takes all the frames unless the slave or the encoder failed, a pending burst leaves one place, or a failed block was left over |
| A52.TransferReturns | a52/pcm_a52.c:414-424 | returns the first turn's result if that reports nothing, else what all turns report; a later error is not returned |
| A52.FailingStep | a52/pcm_a52.c:391-422 | for any block size and boundary, a step that takes a block, reports an error and leaves the pointer where it was |
| A52.Plugin.Transfer | a52/pcm_a52.c:404-425 | is the reference, the turns added up: new state, result and frames taken; reports what it takes except, exactly, a block on which the encoder failed; takes all unless stuck; takes nothing and reports nothing when a block was left over |
| A52.Plugin.Conserved | a52/pcm_a52.c:404-469 | frames accepted are those of the bursts plus those buffered; frames written are those of the bursts less those pending |
| A52.Plugin.WrittenInOrder | a52/pcm_a52.c:208-399 | what the slave got is a prefix of the bursts of the accepted blocks |
| A52.Plugin.Pointer | a52/pcm_a52.c:432-469 | the error states, and the frames written less those the slave still holds modulo the boundary, exactly when the unsigned arithmetic allows it; only writes out what is pending |
| A52.BehindWithin | a52/pcm_a52.c:455-462 | the distance to the slave stays within its buffer and is free space short of whole turns |
| A52.UnsignedExact | a52/pcm_a52.c:463-465 | reducing a signed difference with an unsigned modulus is right if and only if it is not negative or the modulus divides the word |
| A52.WrongPosition | a52/pcm_a52.c:391-469 | behind a failing first block, with 64-bit words and a boundary of 1536 * 2^52, the position returned is 2^62 - 1536 where the frames played are the boundary less 1536 |
| A52.Plugin.Run | a52/pcm_a52.c:404-469 | any run of transfers and pointer calls gives the state, the pointer, the frames taken and the results of the reference run; what is written is a prefix of the bursts, and frames are conserved |
| CircularList.RingInverse | maemo/list.h:39-181 | in a ring next and prev are inverse to each other and stay in it |
| CircularList.RingUnique | maemo/list.h:39-181 | the links determine the sequence of nodes |
| CircularList.AddBetween | maemo/list.h:39-47 | inserts a node between two neighbours |
| CircularList.Add | maemo/list.h:57-60 | the node becomes the first |
| CircularList.AddTail | maemo/list.h:70-73 | the node becomes the last |
| CircularList.Del | maemo/list.h:93-98 | the node is gone from the list, its links cleared |
| CircularList.DelInit | maemo/list.h:104-108 | the node is gone from the list and a list of its own |
| CircularList.MoveWithin | maemo/list.h:115-119 | the node becomes the first of its own list |
| CircularList.MoveAcross | maemo/list.h:115-119 | the node leaves one list and becomes the first of another; both stay lists |
| CircularList.MoveTailWithin | maemo/list.h:126-131 | the node becomes the last of its own list |
| CircularList.MoveTailAcross | maemo/list.h:126-131 | the node leaves one list and becomes the last of another; both stay lists |
| CircularList.IsEmpty | maemo/list.h:137-140 | true if and only if the list is only its head |
| CircularList.Splice | maemo/list.h:142-165 | the nodes of one list come behind the head of the other, in order |
| CircularList.SpliceInit | maemo/list.h:174-181 | the same, and the list that was emptied is a list again |
| CircularList.DeleteAll | maemo/list.h:215-217 | the safe traversal with deletion visits every node once, in order, and leaves only the head |
| CircularList.Visit | maemo/list.h:197-199 | the plain traversal visits every node once, in order |
| Arcam.Receiver.Consume | arcam-av/arcam_av.c:105-153 | the switch with its re-examination of a misfit is the byte-at-a-time automaton |
| Arcam.Receiver.Receive | arcam-av/arcam_av.c:89-164 | a call does exactly the reads, leaves exactly the port, error, message and automaton of the reference; a message is returned exactly when the consumed bytes complete one, and then they end with it; otherwise minus the error on record |
| Arcam.Receiver.ReceiveMany | arcam-av/arcam_av.c:89-164 | the same for any number of calls and any reads; the messages are those of the automaton on the bytes consumed |
| Arcam.NothingRead | arcam-av/arcam_av.c:100-104 | a read that fails or gives nothing ends the call at once without a message, and only a failure changes the error on record |
| Arcam.EndsDry | arcam-av/arcam_av.c:96-156 | a call ends without a message only when a read failed or gave nothing, and only a failure changes the error on record |
| Arcam.SilentSuccess | arcam-av/arcam_av.c:100-104 | a call that reads nothing and reports success without a message |
| Arcam.DecodeJoin | arcam-av/arcam_av.c:89-164 | the automaton on two pieces of a stream is the automaton on the stream |
| Arcam.FeedIsDecode | arcam-av/arcam_av.c:100-154 | reading no more than the message can still need, a message never ends before the last byte read |
| Arcam.OnlyFrames | arcam-av/arcam_av.c:96-164 | whatever was read, the messages are those of OK frames standing in it one behind the other without overlap, and the automaton stands behind the first bytes of one more |
| Arcam.OneResponse | arcam-av/arcam_av.c:106-149 | a well-formed reply met in any state is delivered exactly if it is an OK reply and the state is synchronised, and leaves it synchronised |
| Arcam.Mixture | arcam-av/arcam_av.c:106-149 | any mixture of OK and error replies decodes to the OK ones in order, less the first reply if the state was not synchronised |
| Arcam.BehindNoise | arcam-av/arcam_av.c:106-149 | behind noise all OK replies arrive if and only if the noise leaves the automaton synchronised or the first reply is an error |
| Arcam.ReplyLost | arcam-av/arcam_av.c:106-149 | behind three bytes of noise that look like a header an OK reply is lost |
| Talker.PeriodOfPdus | aaf/pcm_aaf.c:1156-1167 | n PDU periods are at most a period and fall short of it by at most n - 1 nanoseconds; a PDU period is not zero |
| Talker.LaunchOrder | aaf/pcm_aaf.c:630-698 | any two launches are at least a PDU period apart, across periods and missed ticks |
| Talker.LaunchGap | aaf/pcm_aaf.c:630-698 | without missed ticks a gap is between the PDU period and that plus n - 1 nanoseconds |
| Talker.ClockKeepsPace | aaf/pcm_aaf.c:566-567 | tick times follow the sample rate for ever if and only if a period is a whole number of nanoseconds |
| Talker.PaceAt44100 | aaf/pcm_aaf.c:566-567 | at 44100 Hz they do so exactly for periods of a multiple of 441 frames |
| Talker.ClockSlips | aaf/pcm_aaf.c:566-567 | with 256 frames at 44100 Hz the second tick is a nanosecond early |
| Talker.Device.TxPdu | aaf/pcm_aaf.c:639-675 | one PDU with the next number and the frames at a place of the buffer; sent and 0 returned exactly if sendmsg succeeds; a failure uses up the number |
| Talker.Device.TxPdus | aaf/pcm_aaf.c:677-698 | the PDUs of a period are those the schedule wants; an error exactly if one of the sends fails, with every PDU before it sent |
| Talker.Device.IncPtr | aaf/pcm_aaf.c:522-529 | the pointer stays congruent to the frames sent and never passes the boundary, though it may equal it |
| Talker.Device.TxFrames | aaf/pcm_aaf.c:975-997 | an underrun exactly when less than a period is buffered, otherwise the next period of the stream, up to the first failure of the network |
| Talker.Device.Timeout | aaf/pcm_aaf.c:1029-1053 | sends a period for every expiration; the network's error exactly if one of the sends it makes fails, with every PDU before it sent; otherwise success exactly when enough is buffered; an underrun costs one tick and the expirations behind it but no frames |
| Talker.PeriodsExact | aaf/pcm_aaf.c:1029-1053 | as many periods are sent as there are expirations and whole periods buffered |
| Talker.Device.Run | aaf/pcm_aaf.c:975-1053 | over any run of writes and timer reads everything sent is on schedule; it ends with an error exactly if the network fails one of the sends that the reference makes; otherwise what was written, sent and ticked is that of the reference and the payloads are the application's stream in order |
| Talker.Device.Play | aaf/pcm_aaf.c:1289-1325 | the same from a new device through the start of its clock |
| Talker.PduOf | aaf/pcm_aaf.c:553-698 | launch time, presentation time, number and payload of PDU k from the start time, the tick of its period and the configuration alone |
| Talker.Device.Launches | aaf/pcm_aaf.c:639-698 | in every reachable state launches increase, presentation follows launch by the transit time, and numbers count modulo 256 |
| Talker.Device.InOrder | aaf/pcm_aaf.c:677-698 | the payloads of the first PDUs together are the first frames of the application's stream |
| Talker.Batching | aaf/pcm_aaf.c:1044-1050 | how expirations were batched does not show in what was sent |
| Talker.TimestampRecovered | aaf/pcm_aaf.c:588-601 | the presentation time is recovered from its lower half if and only if the listener starts less than a turn before it |
| Talker.ExpectedWithinTurn | aaf/pcm_aaf.c:700-710 | a time inside the tolerance is recognised if and only if its upper half is the expected one |
| Talker.RefusedOutside | aaf/pcm_aaf.c:700-710 | a time outside the tolerance but less than half a turn away is refused |
| Talker.RefusedBehindTurn | aaf/pcm_aaf.c:700-710 | a PDU ten nanoseconds late, within its tolerance but behind a turn of the timestamp, is refused |
| Downmix.TapsWithinRing | mix/pcm_vdownmix.c:52-184 | every used tap reaches back less than the ring buffer, in both builds, and no two taps of a filter reach back the same |
| Downmix.ClipNearest | mix/pcm_vdownmix.c:253-259 | the sample written is the one 16-bit value nearest to the shifted sum |
| Downmix.OutputNearest | mix/pcm_vdownmix.c:253-259 | every output is the 16-bit sample nearest to the sum of all taps divided by 2^14 and rounded down |
| Downmix.TapHeard | mix/pcm_vdownmix.c:186-262 | a single value comes out of each used tap of its channel's filter, as many frames later as the tap reaches back, as the sample nearest to its product over 2^14; fronts feed filters 0 and 1, rears 2 and 3, the centre 4 |
| Downmix.NoTapHeard | mix/pcm_vdownmix.c:186-262 | at any other time there is silence |
| Downmix.MixAdds | mix/pcm_vdownmix.c:237-251 | the sums are additive in the streams |
| Downmix.Mixer.MixFrame | mix/pcm_vdownmix.c:236-262 | one frame gives the reference sums, shifted and clipped, and the ring holds the next history |
| Downmix.Mixer.Transfer | mix/pcm_vdownmix.c:210-266 | a transfer of any size gives the next samples of direct convolutions with silence before the start |
| Downmix.Mixer.Run | mix/pcm_vdownmix.c:210-266 | any sequence of transfers gives the reference output of the joined streams |
| Downmix.OutputsKept | mix/pcm_vdownmix.c:236-263 | later samples never change earlier outputs |
| Downmix.Mixer.constructor | mix/pcm_vdownmix.c:269-278 | a sixth channel is ignored and the ring is silent |
| Downmix.PartialBound | mix/pcm_vdownmix.c:237-251 | every value of an accumulator is at most the sample bound times the sum of the weights' magnitudes |
| Downmix.Headroom | mix/pcm_vdownmix.c:222-251 | no accumulator leaves 32 bits for samples up to m if and only if m times that sum fits, in either build and for any channels |
| Downmix.DefaultHeadroom | mix/pcm_vdownmix.c:52-184 | with five channels and the default taps the largest safe bound is 15386 |
| Upmix.Mix.DelayChannel | mix/pcm_upmix.c:81-104 | one channel gives the oldest samples of line and input and keeps the newest, for sizes below and above the delay |
| Upmix.Mix.DelayedCopy | mix/pcm_upmix.c:63-106 | both rear channels get the next part of the delayed front streams, whatever the size |
| Upmix.Mix.Run | mix/pcm_upmix.c:63-106 | over any transfers the rear channels are zeros followed by the front channels |
| Upmix.Mix.constructor | mix/pcm_upmix.c:353-362 | the delay is rate * delay_ms / 1000 samples of silence, none for no delay |
| Upmix.RearSample | mix/pcm_upmix.c:63-106 | sample n behind is sample n - delay in front, or silence |
| Upmix.Pushed | mix/pcm_upmix.c:99-103 | overwriting the oldest sample and stepping on puts the new one at the end of the queue |
| SpeexBlocks.Plugin.Exchange | speex/pcm_speex.c:93-100 | results go out before samples come in, although both may live in the same buffer |
| SpeexBlocks.Plugin.ProcessBlock | speex/pcm_speex.c:101-111 | a full block goes through canceller, preprocessor and playback; its result becomes what is pending, the states move on, and the invariant is kept |
| SpeexBlocks.BothStages | speex/pcm_speex.c:101-108 | with both stages on, the preprocessor gets the canceller's output, its result comes out and is what is played back |
| SpeexBlocks.EchoOnly | speex/pcm_speex.c:101-108 | with the canceller alone its output comes out and is played back |
| SpeexBlocks.PreprocessOnly | speex/pcm_speex.c:101-108 | with the preprocessor alone its result comes out and nothing is played back |
| SpeexBlocks.HeardThroughCanceller | speex/pcm_speex.c:101-108 | two series of blocks for which the canceller gives the same have the same results and leave the same states |
| SpeexBlocks.Plugin.Transfer | speex/pcm_speex.c:61-115 | any transfer keeps the invariant, between calls the buffer is never full, and without DSP samples pass unchanged |
| SpeexBlocks.Plugin.OutputIsLatent | speex/pcm_speex.c:61-115 | everything given out is a block of silence and then the processed blocks of the input, cut to its length |
| SpeexBlocks.CutOfBlocks | speex/pcm_speex.c:86-100 | the blocks given to the DSP are the whole blocks of the input |

## Left out

- Sinc, Kaiser and cubic coefficients and the accumulate step (pph/resample.c:126-308): floating point; they are given functions, and the double-precision kernels, which repeat the single ones, are covered by the choice of those functions.
- Strides other than one in the native call, and with them the interleaved float entry (pph/resample.c:951-967): the rate plugin uses the interleaved 16-bit entry, which gathers and scatters each channel around a native call of stride one.
- `speex_resampler_reset_mem` (pph/resample.c:1089-1095) and the chunk loop built without variable-length arrays (pph/resample.c:917-945).
- Wrap-around of 32-bit sizes, positions and products in the resampler and in the frame counts.
- The A52 encoder and the burst header (a burst is what the encoder gave, padded with zeros), channel re-routing, `a52_drain`, and the modulus by the buffer size in builds without the boundary work-around (a52/pcm_a52.c:467).
- The slave of the A52 plugin takes no more frames than it is offered and keeps what it took in order.
- Splicing a list into itself and deleting a head: the original leaves them undefined.
- Backward and entry-typed traversals of the list (maemo/list.h:205-241).
- Sign extension of command bytes above 127 on platforms with a signed char, the Arcam command sender, the server and the shared state it keeps.
- AAF sockets, timers and PDU fields beyond number, times and payload, packet validation apart from the timestamp, capture, and the end of a stream.  The PCM core, not the plugin, copies the application's frames into the frame buffer; `Talker.Device.Write` stands for it.  Its available frames are frames written less frames sent, and the boundary is a multiple of the buffer size.
- Channel areas with steps: buffers of the mixers and of the speex plugin are one array a channel.
- The other copy and average functions of the up-mixer.
- Choosing speex parameters, a zero block size, and the state the echo canceller shares with the preprocessor beyond its being readable.
- Plugins around PulseAudio, JACK, OSS, libsamplerate, libswresample and USB streams, the Maemo DSP protocol, configuration parsing, parameter negotiation, channel maps and allocation failure.
