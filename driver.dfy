/** The per-frame driver: the body of the read loop of `amd_start_function`
    (mod_amd.c:313-428) with the session I/O taken out. The frames the
    session would deliver are a given sequence; reading stops at the end of
    the sequence (the channel is no longer ready or a read failed) or at the
    first verdict. */
module AmdDriver {
  import opened AmdTypes
  import opened Classifier
  import opened AmdVad

  /** What one detection run is given: the configuration, the session's read
      codec, and `samples_per_packet` of the raw L16 codec installed for it. */
  datatype Session = Session(cfg: Config, codec: Codec, samplesPerPacket: uint32)

  /** The session needs a non-zero `total_analysis_time` (otherwise
      `sample_count_limit` is never initialised), a sample budget that fits the
      `int32_t` it is stored in, and a packet size below 2^31, so that the
      `int32_t -= uint32_t` update never wraps while the budget is positive. */
  predicate SessionOk(s: Session)
  {
    s.cfg.totalAnalysisTime > 0 &&
    (s.codec.rate / 1000) * s.cfg.totalAnalysisTime < Int32Bound &&
    s.samplesPerPacket < Int32Bound
  }

  /** A frame that the loop can always process, whatever state it is read
      in: an empty frame, or one with `0 < samples <= rate` (for `frame_ms`)
      on which the classifier is defined. */
  predicate FrameOk(codec: Codec, f: Frame)
  {
    f.samples == 0 || (f.samples <= codec.rate && Classifiable(codec, f))
  }

  predicate AllFramesOk(codec: Codec, frames: seq<Frame>)
  {
    forall i :: 0 <= i < |frames| ==> FrameOk(codec, frames[i])
  }

  /** What the loop needs of the frame it reads in state d, path by path:
      nothing once a verdict is in (the loop has stopped) or when the frame
      is empty (it is skipped); otherwise `0 < samples <= rate` for
      `frame_ms`, and, unless the budget runs out on this frame, a frame the
      classifier is defined on. */
  predicate StepOk(s: Session, d: DriverState, f: Frame)
  {
    d.verdict.Some? || f.samples == 0 ||
    (f.samples <= s.codec.rate && (TimesOut(s, d, f) || Classifiable(s.codec, f)))
  }

  /** Every frame the loop reads from state d, in order, meets `StepOk` in the
      state the loop has reached when it reads it. */
  predicate StreamOk(s: Session, d: DriverState, frames: seq<Frame>)
    decreases |frames|, 0
  {
    |frames| == 0 ||
    (StreamOk(s, d, frames[..|frames| - 1]) &&
     StepOk(s, Run(s, d, frames[..|frames| - 1]), frames[|frames| - 1]))
  }

  /** The longest sequence of frames the model admits: with `frame_ms` at most
      1000, no duration counter can reach 2^32 within it. */
  const MaxFrames: nat := 4294967

  /** `frame_ms` (mod_amd.c:384): the frame length in whole milliseconds,
      computed from the whole number of frames per second; never more than
      a second. */
  function FrameMs(rate: nat, samples: nat): (ms: nat)
    requires 0 < samples <= rate
    ensures ms <= 1000
  {
    DivAtLeast(rate, samples, 1);
    DivNoLarger(1000, rate / samples);
    1000 / (rate / samples)
  }

  /** The state the loop carries from one frame to the next. */
  datatype DriverState = DriverState(vad: VadRec, sampleCountLimit: int, verdict: Option<Verdict>)

  /** `sample_count_limit` as initialised (mod_amd.c:342-344): the samples
      that `total_analysis_time` milliseconds hold at the session's rate,
      counted in whole samples per millisecond. Below 1 kHz the budget is 0,
      which the loop reads as "no limit". */
  function InitialLimit(s: Session): (r: int)
    ensures r >= 0
    ensures r == 0 <==> s.codec.rate < 1000 || s.cfg.totalAnalysisTime == 0
    ensures s.codec.rate >= 1000 ==> r >= s.cfg.totalAnalysisTime
  {
    var perMs: nat := s.codec.rate / 1000;
    MulMono(if perMs >= 1 then 1 else 0, perMs, s.cfg.totalAnalysisTime);
    perMs * s.cfg.totalAnalysisTime
  }

  /** The state before the first frame (mod_amd.c:330-344): the initial
      record, which keeps exactly one phase flag set, the full budget, and no
      verdict. */
  function Start(s: Session): (r: DriverState)
    ensures PhaseOk(r.vad) && r.vad.inInitialSilence && r.vad.state == InWord
    ensures r.vad.words == 0 && r.vad.silenceDuration == 0 && r.vad.voiceDuration == 0
    ensures r.verdict.None? && r.sampleCountLimit == InitialLimit(s)
    ensures SessionOk(s) && s.codec.rate >= 1000 ==> r.sampleCountLimit > 0
  {
    DriverState(Initial, InitialLimit(s), None)
  }

  /** The sample budget runs out on this frame (mod_amd.c:386-395). With a
      positive budget, that is exactly when no more than one packet is left. */
  predicate TimesOut(s: Session, d: DriverState, f: Frame): (t: bool)
    ensures d.sampleCountLimit > 0 ==>
      (t <==> d.verdict.None? && f.samples > 0 && d.sampleCountLimit <= s.samplesPerPacket)
    ensures t ==> d.verdict.None? && f.samples > 0
  {
    d.verdict.None? && f.samples > 0 &&
    d.sampleCountLimit != 0 && d.sampleCountLimit - s.samplesPerPacket <= 0
  }

  /** One pass of the loop body (mod_amd.c:380-423). */
  function Next(s: Session, d: DriverState, f: Frame): (r: DriverState)
    requires StepOk(s, d, f)
    // after a verdict the loop has stopped; an empty frame is skipped
    ensures d.verdict.Some? || f.samples == 0 ==> r == d
    // every other frame sets frame_ms and spends its packet from a non-zero budget
    ensures d.verdict.None? && f.samples > 0 ==>
      r.vad.frameMs == FrameMs(s.codec.rate, f.samples) &&
      r.sampleCountLimit == (if d.sampleCountLimit != 0 then d.sampleCountLimit - s.samplesPerPacket else 0)
    // the budget is checked before the frame is classified
    ensures r.verdict == Some(Verdict(NotSure, TooLong)) <==>
      d.verdict == Some(Verdict(NotSure, TooLong)) || TimesOut(s, d, f)
    ensures TimesOut(s, d, f) ==> r.vad == d.vad.(frameMs := FrameMs(s.codec.rate, f.samples))
    // otherwise the classification picks the handler
    ensures d.verdict.None? && f.samples > 0 && !TimesOut(s, d, f) ==>
      Outcome(r.vad, r.verdict) ==
        var v := d.vad.(frameMs := FrameMs(s.codec.rate, f.samples));
        if Classify(s.cfg, s.codec, f) == Silence then SilenceFrame(s.cfg, v) else VoicedFrame(s.cfg, v)
    // what every step keeps
    ensures PhaseOk(d.vad) ==> PhaseOk(r.vad)
    ensures d.vad.inGreeting ==> r.vad.inGreeting
    ensures d.vad.words <= r.vad.words <= d.vad.words + 1
    ensures r.vad.silenceDuration <= d.vad.silenceDuration + 1000
    ensures r.vad.voiceDuration <= d.vad.voiceDuration + 1000
    ensures d.vad.frameMs <= 1000 ==> r.vad.frameMs <= 1000
  {
    if d.verdict.Some? || f.samples == 0 then d
    else
      var vad := d.vad.(frameMs := FrameMs(s.codec.rate, f.samples));
      var limit := if d.sampleCountLimit != 0 then d.sampleCountLimit - s.samplesPerPacket else d.sampleCountLimit;
      if d.sampleCountLimit != 0 && limit <= 0 then
        DriverState(vad, limit, Some(Verdict(NotSure, TooLong)))
      else
        var o := if Classify(s.cfg, s.codec, f) == Silence then SilenceFrame(s.cfg, vad) else VoicedFrame(s.cfg, vad);
        HandlersKeepPhase(s.cfg, vad);
        DriverState(o.vad, limit, o.verdict)
  }

  /** The loop run over a sequence of frames from state d; once a verdict is
      in, nothing changes. */
  function Run(s: Session, d: DriverState, frames: seq<Frame>): (r: DriverState)
    requires StreamOk(s, d, frames)
    ensures d.verdict.Some? ==> r == d
    decreases |frames|, 1
  {
    if |frames| == 0 then d
    else Next(s, Run(s, d, frames[..|frames| - 1]), frames[|frames| - 1])
  }

  /** The number of frames that carry samples. */
  function NonEmpty(frames: seq<Frame>): nat
  {
    if |frames| == 0 then 0
    else NonEmpty(frames[..|frames| - 1]) + (if frames[|frames| - 1].samples > 0 then 1 else 0)
  }

  lemma PrefixOfAppend(a: seq<Frame>, b: seq<Frame>)
    requires |b| > 0
    ensures (a + b)[..|a + b| - 1] == a + b[..|b| - 1] && (a + b)[|a + b| - 1] == b[|b| - 1]
  {
  }

  /** A stream of frames that the loop can process in any state is one it
      can process from d. */
  lemma {:induction false} AllFramesOkStream(s: Session, d: DriverState, frames: seq<Frame>)
    requires AllFramesOk(s.codec, frames)
    ensures StreamOk(s, d, frames)
    decreases |frames|
  {
    if |frames| > 0 {
      var init := frames[..|frames| - 1];
      assert AllFramesOk(s.codec, init) by {
        forall i | 0 <= i < |init| ensures FrameOk(s.codec, init[i]) {
          assert init[i] == frames[i];
        }
      }
      AllFramesOkStream(s, d, init);
      assert FrameOk(s.codec, frames[|frames| - 1]);
    }
  }

  /** The run over a non-empty stream is one step after the run over all
      but its last frame. */
  lemma RunLast(s: Session, d: DriverState, frames: seq<Frame>)
    requires StreamOk(s, d, frames) && |frames| > 0
    ensures StreamOk(s, d, frames[..|frames| - 1])
    ensures StepOk(s, Run(s, d, frames[..|frames| - 1]), frames[|frames| - 1])
    ensures Run(s, d, frames) == Next(s, Run(s, d, frames[..|frames| - 1]), frames[|frames| - 1])
  {
  }

  /** A prefix of a stream the loop can process is one too. */
  lemma {:induction false} StreamPrefix(s: Session, d: DriverState, frames: seq<Frame>, i: nat)
    requires StreamOk(s, d, frames) && i <= |frames|
    ensures StreamOk(s, d, frames[..i])
    decreases |frames|
  {
    if i < |frames| {
      var init := frames[..|frames| - 1];
      StreamPrefix(s, d, init, i);
      assert init[..i] == frames[..i];
    } else {
      assert frames[..i] == frames;
    }
  }

  /** Running over a + b is running over a and then over b from where it
      stopped, and the loop can process a + b exactly when it can process b
      from there. */
  lemma {:induction false} RunAppend(s: Session, d: DriverState, a: seq<Frame>, b: seq<Frame>)
    requires StreamOk(s, d, a)
    ensures StreamOk(s, d, a + b) <==> StreamOk(s, Run(s, d, a), b)
    ensures StreamOk(s, d, a + b) ==> Run(s, d, a + b) == Run(s, Run(s, d, a), b)
    decreases |b|
  {
    if |b| == 0 {
      assert a + b == a;
    } else {
      PrefixOfAppend(a, b);
      RunAppend(s, d, a, b[..|b| - 1]);
    }
  }

  /** Once a verdict is in, the loop reads no frame, so any frames at all
      may follow. */
  lemma {:induction false} StreamAfterVerdict(s: Session, d: DriverState, b: seq<Frame>)
    requires d.verdict.Some?
    ensures StreamOk(s, d, b)
    decreases |b|
  {
    if |b| > 0 {
      StreamAfterVerdict(s, d, b[..|b| - 1]);
    }
  }

  /** The loop yields at most one verdict: once one is in, any frames may
      follow, none of them is processed, and the verdict and state stay as
      they are. */
  lemma RunStopsAtVerdict(s: Session, d: DriverState, a: seq<Frame>, b: seq<Frame>)
    requires StreamOk(s, d, a) && Run(s, d, a).verdict.Some?
    ensures StreamOk(s, d, a + b) && Run(s, d, a + b) == Run(s, d, a)
  {
    StreamAfterVerdict(s, Run(s, d, a), b);
    RunAppend(s, d, a, b);
  }

  /** An empty frame anywhere in the stream changes nothing. */
  lemma RunSkipsEmptyFrame(s: Session, d: DriverState, a: seq<Frame>, f: Frame, b: seq<Frame>)
    requires StreamOk(s, d, a) && f.samples == 0
    ensures StreamOk(s, d, a + [f]) && Run(s, d, a + [f]) == Run(s, d, a)
    ensures StreamOk(s, d, a + [f] + b) <==> StreamOk(s, d, a + b)
    ensures StreamOk(s, d, a + b) ==> Run(s, d, a + [f] + b) == Run(s, d, a + b)
  {
    PrefixOfAppend(a, [f]);
    assert a + [][..0] == a;
    assert StreamOk(s, d, a + [f]);
    assert Run(s, d, a + [f]) == Next(s, Run(s, d, a), f);
    RunAppend(s, d, a + [f], b);
    RunAppend(s, d, a, b);
  }

  /** Along any stream, exactly one phase flag stays set, the greeting phase
      is never left, and words are never taken away; each frame adds at most
      one word and at most one second to either run. */
  lemma {:induction false} RunKeepsPhase(s: Session, d: DriverState, frames: seq<Frame>)
    requires StreamOk(s, d, frames)
    ensures PhaseOk(d.vad) ==> PhaseOk(Run(s, d, frames).vad)
    ensures d.vad.inGreeting ==> Run(s, d, frames).vad.inGreeting
    ensures d.vad.words <= Run(s, d, frames).vad.words <= d.vad.words + |frames|
    ensures Run(s, d, frames).vad.silenceDuration <= d.vad.silenceDuration + 1000 * |frames|
    ensures Run(s, d, frames).vad.voiceDuration <= d.vad.voiceDuration + 1000 * |frames|
    ensures d.vad.frameMs <= 1000 ==> Run(s, d, frames).vad.frameMs <= 1000
    decreases |frames|
  {
    if |frames| > 0 {
      RunKeepsPhase(s, d, frames[..|frames| - 1]);
    }
  }

  /** From the initial state, `in_initial_silence == !in_greeting` holds after
      every prefix of a stream, and once the greeting phase is entered it is
      never left. */
  lemma PhaseInvariant(s: Session, a: seq<Frame>, b: seq<Frame>)
    requires StreamOk(s, Start(s), a + b)
    ensures StreamOk(s, Start(s), a)
    ensures PhaseOk(Run(s, Start(s), a).vad)
    ensures Run(s, Start(s), a).vad.inGreeting ==> Run(s, Start(s), a + b).vad.inGreeting
    ensures Run(s, Start(s), a).vad.words <= Run(s, Start(s), a + b).vad.words
  {
    StreamPrefix(s, Start(s), a + b, |a|);
    assert (a + b)[..|a|] == a;
    RunKeepsPhase(s, Start(s), a);
    RunAppend(s, Start(s), a, b);
    RunKeepsPhase(s, Run(s, Start(s), a), b);
  }

  /** The sample budget: while no verdict is in, each non-empty frame has
      spent exactly one packet and the budget is still positive; a TOOLONG
      verdict comes only once the frames' packets cover the whole budget. */
  lemma {:induction false} RunSpendsBudget(s: Session, d: DriverState, frames: seq<Frame>)
    requires StreamOk(s, d, frames)
    requires d.verdict.None? && d.sampleCountLimit > 0
    ensures Run(s, d, frames).verdict.None? ==>
      Run(s, d, frames).sampleCountLimit == d.sampleCountLimit - s.samplesPerPacket * NonEmpty(frames) &&
      Run(s, d, frames).sampleCountLimit > 0
    ensures Run(s, d, frames).verdict == Some(Verdict(NotSure, TooLong)) ==>
      d.sampleCountLimit <= s.samplesPerPacket * NonEmpty(frames)
    decreases |frames|
  {
    if |frames| > 0 {
      var init := frames[..|frames| - 1];
      var f := frames[|frames| - 1];
      RunLast(s, d, frames);
      RunSpendsBudget(s, d, init);
      var k := NonEmpty(init);
      assert NonEmpty(frames) == k + (if f.samples > 0 then 1 else 0);
      PacketsStep(s.samplesPerPacket, k);
      PacketsGrow(s.samplesPerPacket, k, NonEmpty(frames));
    }
  }

  /** The deadline: a run from the initial state ends in NOTSURE/TOOLONG only
      once the non-empty frames' packets reach the initial budget, and with
      a non-zero packet size such frames always force a verdict. */
  lemma Deadline(s: Session, frames: seq<Frame>)
    requires SessionOk(s) && StreamOk(s, Start(s), frames) && InitialLimit(s) > 0
    ensures Run(s, Start(s), frames).verdict == Some(Verdict(NotSure, TooLong)) ==>
      InitialLimit(s) <= s.samplesPerPacket * NonEmpty(frames)
    ensures InitialLimit(s) <= s.samplesPerPacket * NonEmpty(frames) ==>
      Run(s, Start(s), frames).verdict.Some?
  {
    RunSpendsBudget(s, Start(s), frames);
  }

  /** The milliseconds the non-empty frames account for. */
  function TotalMs(s: Session, frames: seq<Frame>): nat
    requires AllFramesOk(s.codec, frames)
    decreases |frames|
  {
    if |frames| == 0 then 0
    else
      var f := frames[|frames| - 1];
      TotalMs(s, frames[..|frames| - 1]) + (if f.samples > 0 then FrameMs(s.codec.rate, f.samples) else 0)
  }

  /** Every frame carries samples, can be processed and is classified SILENCE. */
  predicate AllSilent(s: Session, frames: seq<Frame>)
  {
    forall i :: 0 <= i < |frames| ==>
      frames[i].samples > 0 && FrameOk(s.codec, frames[i]) && Classify(s.cfg, s.codec, frames[i]) == Silence
  }

  lemma AllSilentPrefix(s: Session, frames: seq<Frame>)
    requires AllSilent(s, frames) && |frames| > 0
    ensures AllSilent(s, frames[..|frames| - 1]) && AllFramesOk(s.codec, frames[..|frames| - 1])
  {
    var init := frames[..|frames| - 1];
    forall i | 0 <= i < |init| ensures init[i] == frames[i] { }
  }

  lemma PacketsGrow(p: nat, a: nat, b: nat)
    requires a <= b
    ensures p * a <= p * b
  {
    MulMono(a, b, p);
  }

  lemma PacketsStep(p: nat, n: nat)
    ensures p * (n + 1) == p * n + p
  {
  }

  /** A silent frame read within the budget, before any verdict, spends one
      packet and goes to the silence handler: the silence run grows by
      `frame_ms`, words and phase flags stay, and in initial silence the
      verdict is MACHINE/INITIALSILENCE exactly when the run reaches
      `initial_silence`, none otherwise. */
  lemma SilentStep(s: Session, d: DriverState, f: Frame)
    requires d.verdict.None? && d.sampleCountLimit > s.samplesPerPacket
    requires f.samples > 0 && FrameOk(s.codec, f) && Classify(s.cfg, s.codec, f) == Silence
    requires d.vad.inInitialSilence && !d.vad.inGreeting
    ensures StepOk(s, d, f)
    ensures var r := Next(s, d, f);
      r.sampleCountLimit == d.sampleCountLimit - s.samplesPerPacket &&
      r.vad.silenceDuration == d.vad.silenceDuration + FrameMs(s.codec.rate, f.samples) &&
      r.vad.inInitialSilence && !r.vad.inGreeting && r.vad.words == d.vad.words &&
      (r.verdict == Some(Verdict(Machine, InitialSilence)) <==> r.vad.silenceDuration >= s.cfg.initialSilence) &&
      (r.vad.silenceDuration < s.cfg.initialSilence ==> r.verdict.None?)
  {
    assert !TimesOut(s, d, f);
  }

  /** A call that opens with silence, within the sample budget: as long as the
      silence is shorter than `initial_silence`, no verdict is in, the
      silence run is the whole elapsed time and the call is still in its
      initial silence with no word counted. */
  lemma {:induction false} SilenceBeforeThreshold(s: Session, frames: seq<Frame>)
    requires AllFramesOk(s.codec, frames) && AllSilent(s, frames)
    requires s.samplesPerPacket * |frames| < InitialLimit(s)
    requires TotalMs(s, frames) < s.cfg.initialSilence
    ensures StreamOk(s, Start(s), frames)
    ensures var r := Run(s, Start(s), frames);
      r.verdict.None? && r.vad.silenceDuration == TotalMs(s, frames) &&
      r.vad.inInitialSilence && !r.vad.inGreeting && r.vad.words == 0 &&
      r.sampleCountLimit == InitialLimit(s) - s.samplesPerPacket * |frames|
    decreases |frames|
  {
    AllFramesOkStream(s, Start(s), frames);
    if |frames| > 0 {
      var init, f := frames[..|frames| - 1], frames[|frames| - 1];
      AllSilentPrefix(s, frames);
      PacketsGrow(s.samplesPerPacket, |init|, |frames|);
      assert TotalMs(s, frames) == TotalMs(s, init) + FrameMs(s.codec.rate, f.samples);
      assert AllFramesOk(s.codec, init) && AllSilent(s, init);
      assert s.samplesPerPacket * |init| < InitialLimit(s);
      assert TotalMs(s, init) < s.cfg.initialSilence;
      assert AllFramesOk(s.codec, init) && AllSilent(s, init);
    assert s.samplesPerPacket * |init| < InitialLimit(s);
    assert TotalMs(s, init) < s.cfg.initialSilence;
    SilenceBeforeThreshold(s, init);
      PacketsStep(s.samplesPerPacket, |init|);
      SilentStep(s, Run(s, Start(s), init), f);
      RunLast(s, Start(s), frames);
    }
  }

  /** Leading silence: on the first frame whose silence reaches
      `initial_silence`, the verdict is MACHINE/INITIALSILENCE, and not
      before. */
  lemma LeadingSilenceIsMachine(s: Session, frames: seq<Frame>)
    requires AllFramesOk(s.codec, frames) && AllSilent(s, frames) && |frames| > 0
    requires s.samplesPerPacket * |frames| < InitialLimit(s)
    requires TotalMs(s, frames[..|frames| - 1]) < s.cfg.initialSilence
    ensures StreamOk(s, Start(s), frames)
    ensures Run(s, Start(s), frames).verdict == Some(Verdict(Machine, InitialSilence)) <==>
      TotalMs(s, frames) >= s.cfg.initialSilence
    ensures TotalMs(s, frames) < s.cfg.initialSilence ==> Run(s, Start(s), frames).verdict.None?
  {
    AllFramesOkStream(s, Start(s), frames);
    var init, f := frames[..|frames| - 1], frames[|frames| - 1];
    AllSilentPrefix(s, frames);
    PacketsGrow(s.samplesPerPacket, |init|, |frames|);
    assert TotalMs(s, frames) == TotalMs(s, init) + FrameMs(s.codec.rate, f.samples);
    assert AllFramesOk(s.codec, init) && AllSilent(s, init);
    assert s.samplesPerPacket * |init| < InitialLimit(s);
    assert TotalMs(s, init) < s.cfg.initialSilence;
    SilenceBeforeThreshold(s, init);
    var d := Run(s, Start(s), init);
    PacketsStep(s.samplesPerPacket, |init|);
    assert d.verdict.None? && d.sampleCountLimit > s.samplesPerPacket;
    assert f.samples > 0 && FrameOk(s.codec, f) && Classify(s.cfg, s.codec, f) == Silence;
    assert d.vad.inInitialSilence && !d.vad.inGreeting;
    SilentStep(s, d, f);
    RunLast(s, Start(s), frames);
    assert Run(s, Start(s), frames) == Next(s, d, f);
  }

  /** The frame at position i extends the run over the first i frames by one
      step. */
  lemma RunExtends(s: Session, frames: seq<Frame>, i: nat)
    requires StreamOk(s, Start(s), frames) && i < |frames|
    ensures StreamOk(s, Start(s), frames[..i]) && StreamOk(s, Start(s), frames[..i + 1])
    ensures StepOk(s, Run(s, Start(s), frames[..i]), frames[i])
    ensures Run(s, Start(s), frames[..i + 1]) == Next(s, Run(s, Start(s), frames[..i]), frames[i])
  {
    StreamPrefix(s, Start(s), frames, i + 1);
    assert frames[..i + 1][..i] == frames[..i];
  }

  /** Within MaxFrames frames no counter of the record can wrap. */
  lemma CountersFit(s: Session, frames: seq<Frame>, i: nat)
    requires StreamOk(s, Start(s), frames) && i < |frames| <= MaxFrames
    ensures StreamOk(s, Start(s), frames[..i])
    ensures var v := Run(s, Start(s), frames[..i]).vad;
      v.silenceDuration + 1000 < Uint32Bound && v.voiceDuration + 1000 < Uint32Bound &&
      v.words + 1 < Uint32Bound
  {
    StreamPrefix(s, Start(s), frames, i);
    RunKeepsPhase(s, Start(s), frames[..i]);
  }

  lemma RunStopsAtRead(s: Session, frames: seq<Frame>, read: nat)
    requires StreamOk(s, Start(s), frames) && read <= |frames|
    ensures StreamOk(s, Start(s), frames[..read])
    ensures Run(s, Start(s), frames[..read]).verdict.Some? || read == |frames| ==>
      Run(s, Start(s), frames[..read]) == Run(s, Start(s), frames)
  {
    StreamPrefix(s, Start(s), frames, read);
    var a, b := frames[..read], frames[read..];
    assert a + b == frames;
    if Run(s, Start(s), a).verdict.Some? {
      RunStopsAtVerdict(s, Start(s), a, b);
    } else if read == |frames| {
      assert a == frames;
    }
  }

  /** One pass of the loop body over a non-empty frame, on the live record:
      set `frame_ms`, spend the packet, then classify and dispatch. */
  method ProcessFrame(s: Session, vad: Vad, limit: int, f: Frame) returns (newLimit: int, done: Option<Verdict>)
    requires StepOk(s, DriverState(vad.Snapshot(), limit, None), f) && f.samples > 0
    requires vad.silenceDuration + 1000 < Uint32Bound && vad.voiceDuration + 1000 < Uint32Bound
    requires vad.words + 1 < Uint32Bound
    modifies vad
    ensures DriverState(vad.Snapshot(), newLimit, done) == Next(s, DriverState(old(vad.Snapshot()), limit, None), f)
  {
    ghost var d := DriverState(vad.Snapshot(), limit, None);
    newLimit := limit;
    vad.frameMs := 1000 / (s.codec.rate / f.samples);
    assert vad.Snapshot() == d.vad.(frameMs := FrameMs(s.codec.rate, f.samples));
    if newLimit != 0 {
      newLimit := newLimit - s.samplesPerPacket;
      if newLimit <= 0 {
        return newLimit, Some(Verdict(NotSure, TooLong));
      }
    }
    assert !TimesOut(s, d, f);
    var c := ClassifyFrame(s.cfg, s.codec, f);
    if c == Silence {
      done := vad.HandleSilenceFrame(s.cfg);
    } else {
      done := vad.HandleVoicedFrame(s.cfg);
    }
  }

  /** The detection loop of `amd_start_function`: returns the verdict, if
      any, and how many frames it read. It reads the frames in order, stops
      after the one that produced the verdict, and agrees with `Run`. Only
      the frames it reads have to meet `StepOk`. */
  method Detect(s: Session, frames: seq<Frame>) returns (verdict: Option<Verdict>, read: nat)
    requires SessionOk(s) && StreamOk(s, Start(s), frames) && |frames| <= MaxFrames
    ensures verdict == Run(s, Start(s), frames).verdict
    ensures read <= |frames| && StreamOk(s, Start(s), frames[..read])
    ensures Run(s, Start(s), frames[..read]) == Run(s, Start(s), frames)
    ensures verdict.Some? ==>
      0 < read && StreamOk(s, Start(s), frames[..read - 1]) && Run(s, Start(s), frames[..read - 1]).verdict.None?
    ensures verdict.None? ==> read == |frames|
  {
    var vad := new Vad();
    var timeoutMs := s.cfg.totalAnalysisTime;
    var sampleCountLimit: int := (s.codec.rate / 1000) * timeoutMs;
    verdict := None;
    var i := 0;
    while i < |frames|
      invariant 0 <= i <= |frames|
      invariant StreamOk(s, Start(s), frames[..i])
      invariant vad.Snapshot() == Run(s, Start(s), frames[..i]).vad
      invariant sampleCountLimit == Run(s, Start(s), frames[..i]).sampleCountLimit
      invariant Run(s, Start(s), frames[..i]).verdict.None? && verdict.None?
    {
      RunExtends(s, frames, i);
      CountersFit(s, frames, i);
      ghost var d := Run(s, Start(s), frames[..i]);
      assert d == DriverState(vad.Snapshot(), sampleCountLimit, None);
      var f := frames[i];
      i := i + 1;
      if f.samples == 0 {
        assert Run(s, Start(s), frames[..i]) == d;
        continue;
      }
      var complete;
      sampleCountLimit, complete := ProcessFrame(s, vad, sampleCountLimit, f);
      assert DriverState(vad.Snapshot(), sampleCountLimit, complete) == Run(s, Start(s), frames[..i]);
      if complete.Some? {
        verdict := complete;
        break;
      }
    }
    read := i;
    RunStopsAtRead(s, frames, read);
    if verdict.Some? {
      StreamPrefix(s, Start(s), frames, read - 1);
    }
  }
}
