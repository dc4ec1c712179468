# Answering-machine detection (mod_amd) in Dafny

This project models the detection core of `mod_amd.c`, a FreeSWITCH module
that listens to the first seconds of an answered call and decides whether a
human (`HUMAN`) or an answering machine (`MACHINE`) picked up. When it cannot
decide within the analysis budget it gives `NOTSURE`. The verdict and its
cause are the values the module writes to the `amd_result` and `amd_cause`
channel variables.

The model has three parts, one module each, plus a module of shared types:

- `AmdTypes` (amd_types.dfy): the configuration record of the `globals` struct
  with its defaults, the codec and frame descriptions, and the verdict
  (result and cause).
- `Classifier` (classifier.dfy): `classify_frame`. The specification functions
  are `Energy`, `Score` and `Classify`. `ClassifyFrame` is the method with the
  accumulating `for` loop, proved against them. Lemmas cover the energy
  bounds, loud and quiet frames, and which samples the walk reads.
- `AmdVad` (vad.dfy): the `amd_vad_t` record and its two handlers.
  `SilenceFrame` and `VoicedFrame` give the effect of one handler call on the
  record as a value; their contracts state the update, the verdict
  conditions and their order. The class `Vad` holds the same fields as
  mutable `uint32` state. Its methods `HandleSilenceFrame` and
  `HandleVoicedFrame` update the fields step by step, as the C code does, and
  are proved to agree with the two functions.
- `AmdDriver` (driver.dfy): the read loop of `amd_start_function` without the
  session I/O. The frames the session would deliver are a given sequence.
  `Next` is one pass of the loop body, `Run` is the loop over a sequence, and
  `Detect` is the imperative loop over a live `Vad`, proved equal to `Run`.
  Lemmas state what holds along the whole stream.

Notes on the code's behaviour, which the model follows:

- The classifier's loop steps its index by `number_of_channels + 1` (`j++`,
  then `j += number_of_channels`). It visits indices 0, c+1, 2(c+1), … for c
  channels. It forms one sum, not a per-channel mean, and never reads the
  samples in between (`ClassifyOnlyReadsStride`). It needs a buffer of
  `(samples - 1) * (channels + 1) + 1` values. A mono frame of `samples`
  values is too short for that (`MonoFrameIsOverRead`). The model keeps this
  as written and requires the longer buffer.
- `divisor` is `rate / 8000` with no lower bound of 1. Below 8 kHz the
  classifier divides by zero, so the model requires `rate >= 8000` for every
  frame it classifies.
- Resets depend on thresholds. `voice_duration` is cleared only once the
  silence run reaches `between_words_silence`. `silence_duration` is cleared
  only once the voice run reaches `minimum_word_length` and no voiced verdict
  fired first. Both runs can be under way at once (`BothRunsCanBeOpen`).
- The call starts in `IN_WORD`. The first voice run therefore enters the
  greeting phase without counting a word (`ShortGreetingThenPauseIsHuman`).
- The deadline is a budget of samples, `(rate / 1000) * total_analysis_time`.
  Each non-empty frame spends `samples_per_packet` of it. The budget is
  checked before the frame is classified, not after the rules, and it does
  not count elapsed milliseconds (`Next`, `RunSpendsBudget`, `Deadline`).

## Model

| member | source | states |
|---|---|---|
| `Classifier.ClassifyFrame` | mod_amd.c:161-182 | The result is VOICED exactly when floor(Σ\|audio[k·(channels+1)]\| over k < samples ÷ (samples ÷ (rate ÷ 8000))) ≥ `silence_threshold`, and SILENCE otherwise. It is defined when the divisor is non-zero, samples ÷ divisor is non-zero, and the buffer covers the strided walk. |
| `Classifier.Energy` | mod_amd.c:170-173 | The `energy` the loop accumulates, as a recursive sum over the visited indices k·(channels+1). The contract bounds it by 32768·n for n visited samples, since no 16-bit sample exceeds 32768 in magnitude. |
| `Classifier.Score` | mod_amd.c:175 | The floor quotient of the energy by samples ÷ divisor. It is at most the energy and below 65536·divisor, so the conversion to `uint32_t` is exact whenever the divisor is at most 65536. |
| `Classifier.Classify` | mod_amd.c:168-181 | The frame is VOICED exactly when its energy reaches `silence_threshold` × (samples ÷ divisor), and SILENCE otherwise. This is the threshold test with the truncation taken out. |
| `Classifier.EnergyAgainstLevel` | mod_amd.c:170-173 | If every visited sample has magnitude ≥ t, the energy is ≥ n·t. If every one is < t (and n > 0), the energy is < n·t. |
| `Classifier.EnergyOnlyReadsStride` | mod_amd.c:170-173 | Two buffers that agree on the visited indices k·stride give the same energy. |
| `Classifier.LoudFrameIsVoiced` | mod_amd.c:168-181 | A frame whose every visited sample reaches the threshold is VOICED, at every sample rate. |
| `Classifier.QuietFrameIsSilence` | mod_amd.c:168-181 | Below 16 kHz (divisor 1), a frame whose every visited sample is below the threshold is SILENCE. |
| `Classifier.ClassifyOnlyReadsStride` | mod_amd.c:170-178 | Frames of equal length that agree on the visited samples are classified alike. The samples between two visited indices never matter. |
| `Classifier.MonoFrameIsOverRead` | mod_amd.c:170-173 | For one channel and two or more samples, a buffer of exactly `samples` values does not cover the walk. |
| `AmdVad.SilenceFrame` | mod_amd.c:184-227 | `silence_duration` grows by exactly `frame_ms`. Only when it reaches `between_words_silence` do `state` become IN_SILENCE and `voice_duration` become 0; otherwise both are unchanged. Words, flags and `frame_ms` are unchanged. MACHINE/INITIALSILENCE comes iff `in_initial_silence` and silence ≥ `initial_silence`. HUMAN/HUMAN comes iff that check failed, `in_greeting` holds and silence ≥ `after_greeting_silence`. No other verdict can come. |
| `AmdVad.VoicedFrame` | mod_amd.c:229-311 | `voice_duration` grows by exactly `frame_ms`. `words` grows by 1 iff `state` was IN_SILENCE and the voice run reached `minimum_word_length`, and `state` is then IN_WORD. The verdict is MAXWORDLENGTH iff voice ≥ `maximum_word_length`; else MAXWORDS iff words ≥ `maximum_number_of_words`; else LONGGREETING iff `in_greeting` and voice ≥ `greeting`. A verdict leaves the silence run and the flags as they were. Without a verdict, a voice run ≥ `minimum_word_length` sets silence to 0 and enters the greeting phase. LONGGREETING cannot fire on the frame that enters the greeting phase. |
| `AmdVad.HandlersKeepPhase` | mod_amd.c:296-308 | If exactly one phase flag was set, both handlers keep it so. Neither handler leaves the greeting phase. Neither takes a word away, and a voiced frame adds at most one. |
| `AmdVad.BothRunsCanBeOpen` | mod_amd.c:184-311 | Start from the initial record under the defaults, with 50 ms frames. Two voiced frames enter the greeting phase with no verdict. One silence frame switches to IN_SILENCE. The next voiced frame is shorter than a word, so it keeps the 50 ms silence credit. Both runs are then 50 ms at once, in a state the handlers reach. |
| `AmdVad.ShortGreetingThenPauseIsHuman` | mod_amd.c:184-311 | Under the defaults with 100 ms frames: 200 ms of voice enter the greeting phase with `words` still 0. The first silence frame switches to IN_SILENCE. The eighth silence frame (800 ms) gives HUMAN/HUMAN, and none before it gives a verdict. |
| `AmdVad.Vad.constructor` | mod_amd.c:324-338 | The live record starts IN_WORD, with zero counters and `frame_ms`, `in_initial_silence` set and `in_greeting` clear. |
| `AmdVad.Vad.HandleSilenceFrame` | mod_amd.c:184-227 | The fields are updated step by step as in the C handler. The new fields and the returned verdict are exactly those `SilenceFrame` gives for the old fields. The `uint32_t` addition must not wrap. |
| `AmdVad.Vad.HandleVoicedFrame` | mod_amd.c:229-311 | The fields are updated step by step as in the C handler. The new fields and the returned verdict are exactly those `VoicedFrame` gives for the old fields. Neither the addition nor the word increment may wrap. |
| `AmdDriver.InitialLimit` | mod_amd.c:342-344 | The budget `(rate / 1000) * total_analysis_time` is never negative. It is 0 exactly when the rate is below 1 kHz or `total_analysis_time` is 0; a budget of 0 is never checked. At 1 kHz or more it holds at least one sample per millisecond. |
| `AmdDriver.Start` | mod_amd.c:330-344 | The state before the first frame: IN_WORD, with zero counters and durations, `in_initial_silence` set (so exactly one phase flag is set), no verdict, and the full budget. With a valid session at 1 kHz or more, that budget is positive. |
| `AmdDriver.TimesOut` | mod_amd.c:386-388 | Only a non-empty frame read before any verdict can time out. With a positive budget, it times out exactly when at most one packet of budget is left. |
| `AmdDriver.FrameMs` | mod_amd.c:384 | `1000 / (rate / samples)` is at most 1000 ms. It is defined when `0 < samples <= rate`. |
| `AmdDriver.Next` | mod_amd.c:380-423 | It needs only what the path taken needs: nothing after a verdict or for an empty frame, `0 < samples <= rate` otherwise, and a classifiable frame only when the budget does not run out on it. After a verdict, or on a zero-sample frame, the state is untouched. Any other frame sets `frame_ms` and takes `samples_per_packet` off a non-zero budget. NOTSURE/TOOLONG comes iff the budget was non-zero and now is ≤ 0, and then the counters are untouched (checked before classification). Otherwise the classification selects `SilenceFrame` or `VoicedFrame`. Each step keeps the phase invariant, never leaves the greeting phase, adds at most one word, and adds at most 1000 ms to either run. |
| `AmdDriver.Run` | mod_amd.c:373-424 | The read loop over a sequence of frames, one `Next` per frame. Its requirement `StreamOk` covers only the frames the loop actually processes, each in the state it is read in. Once a verdict is in, running over further frames changes nothing. |
| `AmdDriver.RunAppend` | mod_amd.c:373-424 | Running the loop over a + b is running it over a, then over b from where it stopped. The loop can process a + b exactly when it can process b from that point. |
| `AmdDriver.StreamAfterVerdict` | mod_amd.c:421-423 | Once a verdict is in, the loop reads no frame, so any frames at all may follow. |
| `AmdDriver.RunStopsAtVerdict` | mod_amd.c:404-423 | Once a prefix of the stream has produced a verdict, any later frames, well-formed or not, change neither the verdict nor the state. The loop yields at most one verdict. |
| `AmdDriver.RunSkipsEmptyFrame` | mod_amd.c:380-382 | A zero-sample frame anywhere in the stream changes nothing: the stream with it can be processed exactly when the stream without it can, and both give the same state. |
| `AmdDriver.RunKeepsPhase` | mod_amd.c:373-424 | Along any stream, the phase invariant is kept and the greeting phase is never left. Words never decrease and grow by at most one per frame. Each run grows by at most 1000 ms per frame. |
| `AmdDriver.PhaseInvariant` | mod_amd.c:330-338 | From the initial state, `in_initial_silence == !in_greeting` holds after every prefix of the stream. Once `in_greeting` is set, it and the word count persist over any continuation. |
| `AmdDriver.RunSpendsBudget` | mod_amd.c:386-395 | While no verdict is in, the budget is the starting budget minus `samples_per_packet` times the number of non-empty frames, and it is still positive. A TOOLONG verdict comes only once those packets cover the starting budget. |
| `AmdDriver.Deadline` | mod_amd.c:342-395 | From the initial state, TOOLONG implies the non-empty frames' packets reach `(rate/1000)·total_analysis_time`. Once they do, some verdict has been given. |
| `AmdDriver.SilenceBeforeThreshold` | mod_amd.c:200-211 | Take an all-silent opening within the budget whose total is below `initial_silence`. Then no verdict is in, the silence run equals the elapsed milliseconds, the call is still in initial silence, and no word has been counted. |
| `AmdDriver.LeadingSilenceIsMachine` | mod_amd.c:200-211 | In an all-silent opening within the budget, the frame that first takes the silence to `initial_silence` gives MACHINE/INITIALSILENCE, and no frame before it gives a verdict. |
| `AmdDriver.ProcessFrame` | mod_amd.c:384-419 | One pass of the loop body on the live record: set `frame_ms`, spend the packet, classify and dispatch. The new fields, the budget and the verdict equal `Next`. |
| `AmdDriver.Detect` | mod_amd.c:313-428 | The read loop from the initial state returns the same verdict as `Run`. It reads no frame after the one that gave the verdict, and it reads the whole stream when there is none. Only the frames it reads need to be well-formed. |

## Left out

- Configuration loading is not modelled: `do_config`, the XML configuration parsing, and module load and shutdown. The configuration is a given `Config` value; `Defaults` records the defaults of the configuration table.
- Session and codec I/O is not modelled: `switch_core_codec_init`, `switch_core_session_set_read_codec`, `switch_core_session_read_frame`, `switch_channel_ready`, the session reset and the codec destroy. These are host calls. The stream of frames read from the session is a given sequence, and its end stands for the channel going away or a failed read. The early returns for a missing session and for a failed L16 codec initialisation are outside the model.
- `samples_per_packet` of the raw L16 codec comes from the host's codec table, so it is a parameter of `Session`.
- Logging and `switch_channel_set_variable` are left out. The verdict is a return value; `ResultText` and `CauseText` give the strings the source stores.
- Floating point is not modelled. `energy` is an exact integer sum, and the conversion of the quotient to `uint32_t` is floor division.
- `Classifier.Score`: the score is proved below 65536 × divisor, which is below 2^32 for every rate under 524,288,000. Above that rate the C conversion to `uint32_t` could be undefined, and the model's score is left unbounded.
- Undefined paths are excluded by preconditions:
  - an uninitialised `sample_count_limit` when `total_analysis_time` is 0 (`SessionOk`);
  - a budget that does not fit `int32_t`, and a packet size of 2^31 or more (`SessionOk`);
  - division by zero when `rate / samples` is 0, and, on frames that get classified, when the rate is below 8000 or `samples < divisor` (`StepOk`, required only of frames the loop processes);
  - `uint32_t` wrap-around of the duration and word counters (the handler methods' requires; `Detect` admits at most 4294967 frames, and `RunKeepsPhase` bounds the counters).
- `AmdDriver.FrameMs`: its contract states only the 1000 ms bound, not how `1000 / (rate / samples)` rounds.
