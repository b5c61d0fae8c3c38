/** The live voice channel: connection flags, gapless scheduling of inbound
    audio on the output clock, flushing on interruption, and the
    byte-to-binary-string loops around base64. Times and buffer durations
    are reals given as inputs; audio decoding and the Web Audio graph are
    not modelled. */
module Voice {
  import opened Basics

  newtype byte = x: int | 0 <= x < 256

  // ---------------------------------------------------------------------
  // encode / decode: the loops on either side of btoa / atob

  /** The binary string whose i-th character has code `bytes[i]`. */
  function BinaryOf(bytes: seq<byte>): (s: string)
    ensures |s| == |bytes|
    ensures forall i | 0 <= i < |bytes| :: s[i] as int == bytes[i] as int
  {
    seq(|bytes|, i requires 0 <= i < |bytes| => bytes[i] as int as char)
  }

  /** The bytes a `Uint8Array` holds after `bytes[i] = s.charCodeAt(i)`:
      each code reduced modulo 256. */
  function BytesOf(s: string): (bytes: seq<byte>)
    ensures |bytes| == |s|
    ensures forall i | 0 <= i < |s| :: bytes[i] as int == (s[i] as int) % 256
  {
    seq(|s|, i requires 0 <= i < |s| => ((s[i] as int) % 256) as byte)
  }

  /** The loop of `encode` before `btoa`. */
  method EncodeLoop(bytes: seq<byte>) returns (binary: string)
    ensures binary == BinaryOf(bytes)
  {
    binary := "";
    var i := 0;
    while i < |bytes|
      invariant 0 <= i <= |bytes|
      invariant binary == BinaryOf(bytes)[..i]
    {
      binary := binary + [bytes[i] as int as char];
      i := i + 1;
    }
  }

  /** The loop of `decode` after `atob`. */
  method DecodeLoop(binary: string) returns (bytes: seq<byte>)
    ensures bytes == BytesOf(binary)
  {
    bytes := [];
    var i := 0;
    while i < |binary|
      invariant 0 <= i <= |binary|
      invariant bytes == BytesOf(binary)[..i]
    {
      bytes := bytes + [((binary[i] as int) % 256) as byte];
      i := i + 1;
    }
  }

  /** Decoding inverts encoding on every byte sequence. */
  lemma DecodeEncode(bytes: seq<byte>)
    ensures BytesOf(BinaryOf(bytes)) == bytes
  {
  }

  /** On binary strings (every code below 256) encoding inverts decoding. */
  lemma EncodeDecode(s: string)
    requires forall i | 0 <= i < |s| :: s[i] as int < 256
    ensures BinaryOf(BytesOf(s)) == s
  {
  }

  // ---------------------------------------------------------------------
  // Session state machine and playback scheduling

  /** An inbound audio fragment: its base64 text and the duration of the
      buffer it decodes to. */
  datatype AudioUnit = AudioUnit(data: string, duration: real)

  /** The parts of a server message the handler reads: the first inline
      audio of the model turn and the interruption flag. */
  datatype ServerMessage = ServerMessage(audio: Option<AudioUnit>, interrupted: bool)

  /** One `source.start(when)` call. */
  datatype Playback = Playback(id: nat, start: real, duration: real)

  datatype VoiceState = VoiceState(
    connecting: bool,
    active: bool,
    hasOutput: bool,            // the output audio context exists
    session: Option<nat>,       // the resolved live session, if any
    nextStart: real,            // the next scheduled start time
    tracked: set<nat>,          // sources scheduled and not yet ended or stopped
    scheduled: seq<Playback>,   // every start call, in order
    stopped: set<nat>,          // every source stopped by an interruption
    closed: seq<nat>,           // every session close call, in order
    nextId: nat)                // identity of the next source created

  const Initial: VoiceState := VoiceState(false, false, false, None, 0.0, {}, [], {}, [], 0)

  datatype Event =
    | Pressed                             // the button: start, stop, or nothing while connecting
    | MediaReady                          // microphone granted, output context created
    | SetupFailed                         // getUserMedia or connect threw
    | Opened                              // onopen
    | SessionResolved(handle: nat)        // the awaited live session is stored
    | Inbound(msg: ServerMessage, clock: real)  // onmessage, `clock` the output context time
    | PlaybackEnded(id: nat)              // a source's ended event
    | TransportClosed                     // onclose

  function Max(a: real, b: real): real { if a < b then b else a }

  /** The message carries audio the handler will play. */
  predicate Playable(s: VoiceState, msg: ServerMessage) {
    msg.audio.Some? && msg.audio.value.data != "" && s.hasOutput
  }

  /** Schedules one buffer at `max(nextStart, clock)` and advances `nextStart` past it. */
  function Schedule(s: VoiceState, duration: real, clock: real): (s': VoiceState)
    ensures s'.scheduled == s.scheduled + [Playback(s.nextId, Max(s.nextStart, clock), duration)]
    ensures s'.nextStart == Max(s.nextStart, clock) + duration
    ensures s'.tracked == s.tracked + {s.nextId} && s'.nextId == s.nextId + 1
  {
    var start := Max(s.nextStart, clock);
    s.(nextStart := start + duration,
       tracked := s.tracked + {s.nextId},
       scheduled := s.scheduled + [Playback(s.nextId, start, duration)],
       nextId := s.nextId + 1)
  }

  /** Stops every tracked source, empties the set and resets the schedule clock. */
  function Interrupt(s: VoiceState): (r: VoiceState)
    ensures r.tracked == {} && r.nextStart == 0.0 && s.tracked <= r.stopped
    ensures r.scheduled == s.scheduled && r.session == s.session && r.active == s.active
  {
    s.(stopped := s.stopped + s.tracked, tracked := {}, nextStart := 0.0)
  }

  /** `onmessage`: schedule the audio if any, then honour an interruption. */
  function OnMessage(s: VoiceState, msg: ServerMessage, clock: real): (r: VoiceState)
    ensures |r.scheduled| == |s.scheduled| + (if Playable(s, msg) then 1 else 0)
    ensures r.scheduled[..|s.scheduled|] == s.scheduled
    ensures msg.interrupted ==> r.tracked == {} && r.nextStart == 0.0
    ensures !msg.interrupted ==> s.tracked <= r.tracked
    ensures r.session == s.session && r.active == s.active && r.closed == s.closed
  {
    var s1 := if Playable(s, msg) then Schedule(s, msg.audio.value.duration, clock) else s;
    if msg.interrupted then Interrupt(s1) else s1
  }

  /** `stopSession`: close the stored session if there is one, clear the flag. */
  function Stop(s: VoiceState): (r: VoiceState)
    ensures r.session.None? && !r.active
    ensures r.closed == s.closed + (if s.session.Some? then [s.session.value] else [])
    ensures r.connecting == s.connecting && r.tracked == s.tracked && r.scheduled == s.scheduled
  {
    match s.session
    case Some(h) => s.(closed := s.closed + [h], session := None, active := false)
    case None => s.(active := false)
  }

  /** The button is disabled while connecting; otherwise it stops an active
      session or starts a new one, which first raises the connecting flag. */
  function Press(s: VoiceState): (r: VoiceState)
    ensures s.connecting ==> r == s
    ensures r.connecting <==> (s.connecting || !s.active)
    ensures !s.connecting ==> !r.active
    ensures |r.closed| <= |s.closed| + 1
  {
    if s.connecting then s
    else if s.active then Stop(s)
    else s.(connecting := true)
  }

  /** One event. The schedule only grows, by at most one start call, and a
      source enters the tracked set only as the one just created. */
  function Step(s: VoiceState, e: Event): (r: VoiceState)
    ensures |s.scheduled| <= |r.scheduled| <= |s.scheduled| + 1
    ensures r.scheduled[..|s.scheduled|] == s.scheduled
    ensures r.tracked <= s.tracked + {s.nextId}
    ensures r.nextId >= s.nextId
  {
    match e
    case Pressed => Press(s)
    case MediaReady => s.(hasOutput := true)
    case SetupFailed => s.(connecting := false)
    case Opened => s.(connecting := false, active := true)
    case SessionResolved(h) => s.(session := Some(h))
    case Inbound(msg, clock) => OnMessage(s, msg, clock)
    case PlaybackEnded(id) => s.(tracked := s.tracked - {id})
    case TransportClosed => s.(active := false, connecting := false)
  }

  function Run(s: VoiceState, es: seq<Event>): VoiceState
    decreases |es|
  {
    if |es| == 0 then s else Run(Step(s, es[0]), es[1..])
  }

  /** Each playable unit starts at `max(nextStart, clock)`, never before the
      clock; without an interruption `nextStart` moves to its end and the
      new source is tracked. */
  lemma SchedulesAtMax(s: VoiceState, msg: ServerMessage, clock: real)
    requires Playable(s, msg)
    ensures var s' := Step(s, Inbound(msg, clock));
      var p := s'.scheduled[|s'.scheduled| - 1];
      && s'.scheduled == s.scheduled + [p]
      && p.start >= clock && p.start >= s.nextStart
      && (p.start == clock || p.start == s.nextStart)
      && p.duration == msg.audio.value.duration
      && (!msg.interrupted ==> s'.nextStart == p.start + p.duration && s'.tracked == s.tracked + {p.id})
  {
  }

  /** A message without audio, or one that arrives with no output context,
      schedules nothing. */
  lemma NothingToPlay(s: VoiceState, msg: ServerMessage, clock: real)
    requires !Playable(s, msg)
    ensures Step(s, Inbound(msg, clock)).scheduled == s.scheduled
    ensures !msg.interrupted ==> Step(s, Inbound(msg, clock)) == s
  {
  }

  /** An interruption stops every tracked source, including one scheduled
      from the same message, empties the set and resets `nextStart` to 0. */
  lemma InterruptionFlushes(s: VoiceState, msg: ServerMessage, clock: real)
    requires msg.interrupted
    ensures var s' := Step(s, Inbound(msg, clock));
      && s'.tracked == {}
      && s'.nextStart == 0.0
      && s.tracked <= s'.stopped
      && (Playable(s, msg) ==> s.nextId in s'.stopped)
  {
  }

  /** Tracked sources leave the set only through their ended event or an
      interruption. */
  lemma TrackedOnlyLeaveByEndOrInterrupt(s: VoiceState, e: Event)
    ensures e.PlaybackEnded? ==> Step(s, e).tracked == s.tracked - {e.id}
    ensures !e.PlaybackEnded? && !(e.Inbound? && e.msg.interrupted) ==> s.tracked <= Step(s, e).tracked
  {
  }

  /** The flag transitions of the connection. */
  lemma ConnectionFlags(s: VoiceState)
    ensures !Step(s, Opened).connecting && Step(s, Opened).active
    ensures !Step(s, TransportClosed).connecting && !Step(s, TransportClosed).active
    ensures !Step(s, SetupFailed).connecting && Step(s, SetupFailed).active == s.active
  {
  }

  /** A press while connecting does nothing, a press on an active channel
      stops it, and any other press starts connecting. */
  lemma PressCases(s: VoiceState)
    ensures s.connecting ==> Step(s, Pressed) == s
    ensures !s.connecting && s.active ==> !Step(s, Pressed).active && Step(s, Pressed).session.None?
    ensures !s.connecting && !s.active ==> Step(s, Pressed) == s.(connecting := true)
  {
  }

  /** Stopping twice is stopping once: the session is closed at most once,
      and only when one was stored; a stop before the session handle was
      stored closes nothing. */
  lemma StopIdempotent(s: VoiceState)
    ensures Stop(Stop(s)) == Stop(s)
    ensures Stop(s).closed == s.closed + (if s.session.Some? then [s.session.value] else [])
    ensures Stop(s).session.None? && !Stop(s).active
  {
  }

  /** Scheduled buffers never overlap, and the last one ends no later than
      `nextStart`. */
  ghost predicate Chained(s: VoiceState) {
    && (forall k | 0 <= k < |s.scheduled| - 1 ::
          s.scheduled[k].start + s.scheduled[k].duration <= s.scheduled[k + 1].start)
    && (|s.scheduled| > 0 ==>
          s.scheduled[|s.scheduled| - 1].start + s.scheduled[|s.scheduled| - 1].duration <= s.nextStart)
  }

  predicate Interrupting(e: Event) {
    e.Inbound? && e.msg.interrupted
  }

  lemma StepKeepsChained(s: VoiceState, e: Event)
    requires Chained(s) && !Interrupting(e)
    ensures Chained(Step(s, e))
  {
  }

  /** Within a turn (no interruption), however bursts of audio arrive, the
      scheduled buffers play one after another without overlap. */
  lemma {:induction false} RunKeepsChained(s: VoiceState, es: seq<Event>)
    requires Chained(s)
    requires forall i | 0 <= i < |es| :: !Interrupting(es[i])
    ensures Chained(Run(s, es))
    decreases |es|
  {
    if |es| > 0 {
      StepKeepsChained(s, es[0]);
      RunKeepsChained(Step(s, es[0]), es[1..]);
    }
  }

  /** Two units that arrive before the clock overtakes the schedule play
      back to back: the second starts exactly where the first ends. */
  lemma BackToBack(s: VoiceState, m1: ServerMessage, c1: real, m2: ServerMessage, c2: real)
    requires Playable(s, m1) && !m1.interrupted
    requires m2.audio.Some? && m2.audio.value.data != ""
    requires c2 <= Step(s, Inbound(m1, c1)).nextStart
    ensures var s1 := Step(s, Inbound(m1, c1));
      var s2 := Step(s1, Inbound(m2, c2));
      var p1 := s1.scheduled[|s1.scheduled| - 1];
      var p2 := s2.scheduled[|s2.scheduled| - 1];
      p2.start == p1.start + p1.duration
  {
  }
}
