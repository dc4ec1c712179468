/** The voice-activity state machine: the `amd_vad_t` record (mod_amd.c:147-159)
    and its two handlers, `amd_handle_silence_frame` (mod_amd.c:184-227) and
    `amd_handle_voiced_frame` (mod_amd.c:229-311).

    `VadRec` is the record as a value and `SilenceFrame` / `VoicedFrame` say
    what one handler call does to it; the class `Vad` holds the same fields
    as mutable `uint32` state, and its handler methods update them step by
    step as the C code does, proved to agree with the two functions. */
module AmdVad {
  import opened AmdTypes

  /** The fields of `amd_vad_t` that the detection reads or writes (the
      session and channel pointers only serve logging and the channel
      variables, which the verdict stands in for). */
  datatype VadRec = VadRec(
    state: VadState,
    frameMs: nat,
    silenceDuration: nat,
    voiceDuration: nat,
    words: nat,
    inInitialSilence: bool,
    inGreeting: bool)

  /** The record as `amd_start_function` sets it up (mod_amd.c:330-338). */
  const Initial: VadRec := VadRec(InWord, 0, 0, 0, 0, true, false)

  /** What a handler call leaves behind: the new record, and the verdict when
      the handler returned SWITCH_TRUE (None when it returned SWITCH_FALSE). */
  datatype Outcome = Outcome(vad: VadRec, verdict: Option<Verdict>)

  /** Exactly one of the two phase flags is set. */
  predicate PhaseOk(v: VadRec)
  {
    v.inInitialSilence == !v.inGreeting
  }

  /** One call of `amd_handle_silence_frame`. */
  function SilenceFrame(g: Config, v: VadRec): (o: Outcome)
    // the silence run grows by exactly one frame
    ensures o.vad.silenceDuration == v.silenceDuration + v.frameMs
    // the run-state and the voice run change only once the silence is long enough
    ensures o.vad.silenceDuration >= g.betweenWordsSilence ==>
      o.vad.state == InSilence && o.vad.voiceDuration == 0
    ensures o.vad.silenceDuration < g.betweenWordsSilence ==>
      o.vad.state == v.state && o.vad.voiceDuration == v.voiceDuration
    // words, phase flags and frame length are untouched
    ensures o.vad.words == v.words && o.vad.frameMs == v.frameMs
    ensures o.vad.inInitialSilence == v.inInitialSilence && o.vad.inGreeting == v.inGreeting
    // INITIALSILENCE is tested first, then HUMAN; nothing else can come from silence
    ensures o.verdict == Some(Verdict(Machine, InitialSilence)) <==>
      v.inInitialSilence && o.vad.silenceDuration >= g.initialSilence
    ensures o.verdict == Some(Verdict(Human, HumanCause)) <==>
      !(v.inInitialSilence && o.vad.silenceDuration >= g.initialSilence) &&
      v.inGreeting && o.vad.silenceDuration >= g.afterGreetingSilence
    ensures o.verdict.Some? ==>
      o.verdict == Some(Verdict(Machine, InitialSilence)) || o.verdict == Some(Verdict(Human, HumanCause))
  {
    var silence := v.silenceDuration + v.frameMs;
    var v1 := v.(silenceDuration := silence);
    var v2 := if silence >= g.betweenWordsSilence then v1.(state := InSilence, voiceDuration := 0) else v1;
    if v2.inInitialSilence && silence >= g.initialSilence then
      Outcome(v2, Some(Verdict(Machine, InitialSilence)))
    else if silence >= g.afterGreetingSilence && v2.inGreeting then
      Outcome(v2, Some(Verdict(Human, HumanCause)))
    else
      Outcome(v2, None)
  }

  /** One call of `amd_handle_voiced_frame`. */
  function VoicedFrame(g: Config, v: VadRec): (o: Outcome)
    // the voice run grows by exactly one frame
    ensures o.vad.voiceDuration == v.voiceDuration + v.frameMs && o.vad.frameMs == v.frameMs
    // a word is counted exactly when a long enough voice run follows IN_SILENCE
    ensures o.vad.words == v.words + (if v.state == InSilence && o.vad.voiceDuration >= g.minimumWordLength then 1 else 0)
    ensures o.vad.voiceDuration >= g.minimumWordLength ==> o.vad.state == InWord
    ensures o.vad.voiceDuration < g.minimumWordLength ==> o.vad.state == v.state
    // MAXWORDLENGTH, then MAXWORDS, then LONGGREETING
    ensures o.verdict == Some(Verdict(Machine, MaxWordLength)) <==>
      o.vad.voiceDuration >= g.maximumWordLength
    ensures o.verdict == Some(Verdict(Machine, MaxWords)) <==>
      o.vad.voiceDuration < g.maximumWordLength && o.vad.words >= g.maximumNumberOfWords
    ensures o.verdict == Some(Verdict(Machine, LongGreeting)) <==>
      o.vad.voiceDuration < g.maximumWordLength && o.vad.words < g.maximumNumberOfWords &&
      v.inGreeting && o.vad.voiceDuration >= g.greeting
    ensures o.verdict.Some? ==>
      o.verdict.value.cause in {MaxWordLength, MaxWords, LongGreeting} && o.verdict.value.result == Machine
    // a verdict returns before the silence reset and the greeting-phase update
    ensures o.verdict.Some? || o.vad.voiceDuration < g.minimumWordLength ==>
      o.vad.silenceDuration == v.silenceDuration &&
      o.vad.inInitialSilence == v.inInitialSilence && o.vad.inGreeting == v.inGreeting
    // otherwise a long enough voice run discards the silence and enters the greeting
    ensures o.verdict.None? && o.vad.voiceDuration >= g.minimumWordLength ==>
      o.vad.silenceDuration == 0 && o.vad.inGreeting &&
      o.vad.inInitialSilence == (v.inGreeting && v.inInitialSilence)
    // LONGGREETING never fires on the frame that enters the greeting phase
    ensures !v.inGreeting ==> o.verdict != Some(Verdict(Machine, LongGreeting))
  {
    var voice := v.voiceDuration + v.frameMs;
    var v1 := v.(voiceDuration := voice);
    assert v1.state == InWord || v1.state == InSilence;
    var v2 := if voice >= g.minimumWordLength && v1.state == InSilence
      then v1.(words := v1.words + 1, state := InWord) else v1;
    if voice >= g.maximumWordLength then
      Outcome(v2, Some(Verdict(Machine, MaxWordLength)))
    else if v2.words >= g.maximumNumberOfWords then
      Outcome(v2, Some(Verdict(Machine, MaxWords)))
    else if v2.inGreeting && voice >= g.greeting then
      Outcome(v2, Some(Verdict(Machine, LongGreeting)))
    else
      var v3 := if voice >= g.minimumWordLength then v2.(silenceDuration := 0) else v2;
      var v4 := if voice >= g.minimumWordLength && !v3.inGreeting
        then v3.(inInitialSilence := false, inGreeting := true) else v3;
      Outcome(v4, None)
  }

  /** Both handlers keep exactly one phase flag set, never leave the greeting
      phase, and never take a word away. */
  lemma HandlersKeepPhase(g: Config, v: VadRec)
    ensures PhaseOk(v) ==> PhaseOk(SilenceFrame(g, v).vad) && PhaseOk(VoicedFrame(g, v).vad)
    ensures v.inGreeting ==> SilenceFrame(g, v).vad.inGreeting && VoicedFrame(g, v).vad.inGreeting
    ensures v.words <= SilenceFrame(g, v).vad.words && v.words <= VoicedFrame(g, v).vad.words <= v.words + 1
  {
  }

  /** The resets are threshold-based, so a silence run and a voice run can
      both be under way in a state the detector reaches. With the default
      configuration and 50 ms frames from the initial record: two voiced
      frames enter the greeting phase, one silence frame reaches
      `between_words_silence` and switches to IN_SILENCE, and the next
      voiced frame, shorter than a word, keeps the silence credit. */
  lemma BothRunsCanBeOpen()
    ensures
      var v1 := VoicedFrame(Defaults, Initial.(frameMs := 50));
      var v2 := VoicedFrame(Defaults, v1.vad);
      var q := SilenceFrame(Defaults, v2.vad);
      var v3 := VoicedFrame(Defaults, q.vad);
      v1.verdict.None? && v2.verdict.None? && q.verdict.None? && v3.verdict.None? &&
      v2.vad.inGreeting && q.vad.state == InSilence &&
      v3.vad.silenceDuration == 50 && v3.vad.voiceDuration == 50
  {
  }

  /** With the default configuration and 100 ms frames: 200 ms of voice
      enter the greeting phase without counting a word (the run starts
      IN_WORD), and the eighth 100 ms frame of the pause that follows gives
      HUMAN. */
  lemma ShortGreetingThenPauseIsHuman()
    ensures
      var v1 := VoicedFrame(Defaults, Initial.(frameMs := 100));
      var v2 := VoicedFrame(Defaults, v1.vad);
      var q1 := SilenceFrame(Defaults, v2.vad);
      var q2 := SilenceFrame(Defaults, q1.vad);
      var q3 := SilenceFrame(Defaults, q2.vad);
      var q4 := SilenceFrame(Defaults, q3.vad);
      var q5 := SilenceFrame(Defaults, q4.vad);
      var q6 := SilenceFrame(Defaults, q5.vad);
      var q7 := SilenceFrame(Defaults, q6.vad);
      var q8 := SilenceFrame(Defaults, q7.vad);
      v1.verdict.None? && v1.vad.inGreeting && v2.verdict.None? && v2.vad.words == 0 &&
      q1.verdict.None? && q1.vad.state == InSilence && q2.verdict.None? && q3.verdict.None? &&
      q4.verdict.None? && q5.verdict.None? && q6.verdict.None? && q7.verdict.None? &&
      q8.verdict == Some(Verdict(Human, HumanCause)) && q8.vad.silenceDuration == 800
  {
  }

  /** The live record: `amd_vad_t` with its `uint32_t` fields. */
  class Vad {
    var state: VadState
    var frameMs: uint32
    var silenceDuration: uint32
    var voiceDuration: uint32
    var words: uint32
    var inInitialSilence: bool
    var inGreeting: bool

    /** The fields as a value. */
    function Snapshot(): VadRec
      reads this
    {
      VadRec(state, frameMs, silenceDuration, voiceDuration, words, inInitialSilence, inGreeting)
    }

    /** The state initialisation of `amd_start_function` (mod_amd.c:324-338). */
    constructor ()
      ensures Snapshot() == Initial
    {
      state := InWord;
      silenceDuration := 0;
      voiceDuration := 0;
      frameMs := 0;
      inInitialSilence := true;
      inGreeting := false;
      words := 0;
    }

    /** `amd_handle_silence_frame`; the addition must not wrap. */
    method HandleSilenceFrame(g: Config) returns (done: Option<Verdict>)
      requires silenceDuration + frameMs < Uint32Bound
      modifies this
      ensures Snapshot() == SilenceFrame(g, old(Snapshot())).vad
      ensures done == SilenceFrame(g, old(Snapshot())).verdict
    {
      silenceDuration := silenceDuration + frameMs;
      if silenceDuration >= g.betweenWordsSilence {
        state := InSilence;
        voiceDuration := 0;
      }
      if inInitialSilence && silenceDuration >= g.initialSilence {
        return Some(Verdict(Machine, InitialSilence));
      }
      if silenceDuration >= g.afterGreetingSilence && inGreeting {
        return Some(Verdict(Human, HumanCause));
      }
      return None;
    }

    /** `amd_handle_voiced_frame`; neither the addition nor the word
      increment may wrap. */
    method HandleVoicedFrame(g: Config) returns (done: Option<Verdict>)
      requires voiceDuration + frameMs < Uint32Bound && words + 1 < Uint32Bound
      modifies this
      ensures Snapshot() == VoicedFrame(g, old(Snapshot())).vad
      ensures done == VoicedFrame(g, old(Snapshot())).verdict
    {
      voiceDuration := voiceDuration + frameMs;
      if voiceDuration >= g.minimumWordLength && state == InSilence {
        words := words + 1;
        state := InWord;
      }
      if voiceDuration >= g.maximumWordLength {
        return Some(Verdict(Machine, MaxWordLength));
      }
      if words >= g.maximumNumberOfWords {
        return Some(Verdict(Machine, MaxWords));
      }
      if inGreeting && voiceDuration >= g.greeting {
        return Some(Verdict(Machine, LongGreeting));
      }
      if voiceDuration >= g.minimumWordLength {
        silenceDuration := 0;
      }
      if voiceDuration >= g.minimumWordLength && !inGreeting {
        inInitialSilence := false;
        inGreeting := true;
      }
      return None;
    }
  }
}
