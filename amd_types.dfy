/** Values shared by the answering-machine detector: machine integer ranges,
    the module configuration, the codec and frame descriptions the host hands
    in, and the verdict that the detector writes back to the channel. */
module AmdTypes {

  datatype Option<+T> = None | Some(value: T)

  /** C's `uint32_t` and `int16_t` as ranges of mathematical integers. */
  const Uint32Bound: int := 0x1_0000_0000
  const Int32Bound: int := 0x8000_0000
  type uint32 = x: int | 0 <= x < Uint32Bound
  type int16 = x: int | -0x8000 <= x < 0x8000

  /** The module-wide `globals` record (mod_amd.c:11-21), read-only while a
      detection runs. All durations are in milliseconds. */
  datatype Config = Config(
    initialSilence: uint32,
    greeting: uint32,
    afterGreetingSilence: uint32,
    totalAnalysisTime: uint32,
    minimumWordLength: uint32,
    betweenWordsSilence: uint32,
    maximumNumberOfWords: uint32,
    silenceThreshold: uint32,
    maximumWordLength: uint32)

  /** The defaults of the configuration table (mod_amd.c:23-94). */
  const Defaults: Config := Config(
    initialSilence := 2500,
    greeting := 1500,
    afterGreetingSilence := 800,
    totalAnalysisTime := 5000,
    minimumWordLength := 100,
    betweenWordsSilence := 50,
    maximumNumberOfWords := 3,
    silenceThreshold := 256,
    maximumWordLength := 5000)

  /** The two fields of the session's read codec implementation that the
      detector looks at: `actual_samples_per_second` and `number_of_channels`. */
  datatype Codec = Codec(rate: uint32, channels: nat)

  /** One frame read from the session: its `samples` count and the 16-bit
      samples its `data` pointer gives access to. */
  datatype Frame = Frame(samples: uint32, data: seq<int16>)

  /** `amd_vad_state_t` (mod_amd.c:142-145). */
  datatype VadState = InWord | InSilence

  /** The values written to the `amd_result` and `amd_cause` channel variables. */
  datatype AmdResult = Human | Machine | NotSure
  datatype AmdCause = InitialSilence | MaxWordLength | MaxWords | LongGreeting | HumanCause | TooLong
  datatype Verdict = Verdict(result: AmdResult, cause: AmdCause)

  /** The exact strings the source stores in the two channel variables. */
  function ResultText(r: AmdResult): string
  {
    match r
    case Human => "HUMAN"
    case Machine => "MACHINE"
    case NotSure => "NOTSURE"
  }

  function CauseText(c: AmdCause): string
  {
    match c
    case InitialSilence => "INITIALSILENCE"
    case MaxWordLength => "MAXWORDLENGTH"
    case MaxWords => "MAXWORDS"
    case LongGreeting => "LONGGREETING"
    case HumanCause => "HUMAN"
    case TooLong => "TOOLONG"
  }
}
