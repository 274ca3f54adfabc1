/**
 * Value-level model of the module-level state of atv.c. Each callback and
 * entry point of the library is a function from the state before the call
 * to the state after it; the class in module Atv refines these functions.
 */
module AtvModel {
  import opened TagMatcher

  /** `sizeof(line_buffer)`. */
  const BufferSize := 200
  /** Most characters a line holds: the last cell is kept for the NUL. */
  const MaxLine := BufferSize - 1

  datatype Option<T> = None | Some(value: T)

  /** The device events libimobiledevice reports; atv.c reacts to ADD and
      REMOVE and ignores the others. */
  datatype EventKind = Add | Remove | Paired
  datatype Event = Event(kind: EventKind, udid: string)

  /** Whether each of the three libimobiledevice calls of `start_logging`
      succeeds: `idevice_new`, `syslog_relay_client_start_service` and
      `syslog_relay_start_capture`. */
  datatype StartOutcome = StartOutcome(deviceFound: bool, relayStarted: bool, captureStarted: bool)

  /** The module-level variables of atv.c. */
  datatype State = State(
    line: seq<char>,       // line_buffer[0 .. line_pos)
    oldStuff: bool,        // old_stuff != 0
    subscribed: bool,      // device events are subscribed to
    hasDevice: bool,       // device != NULL
    hasSyslog: bool,       // syslog != NULL
    udid: Option<string>,  // udid, None for NULL
    udidFreed: bool,       // udid has been freed by atv_stop
    calls: seq<int>)       // the argument of every update_handler call so far

  predicate IsTerminator(c: char)
  {
    c == '\r' || c == '\n'
  }

  predicate NoTerminator(cs: seq<char>)
  {
    forall j :: 0 <= j < |cs| ==> !IsTerminator(cs[j])
  }

  /** What holds between any two callbacks: the cursor leaves room for the
      NUL, no terminator is ever stored, the device and relay handles are
      held together (capturing) or not at all (idle), a capture always has a
      remembered udid, and the handler only ever receives 0 or 1. */
  predicate Inv(s: State)
  {
    && |s.line| <= MaxLine
    && NoTerminator(s.line)
    && s.hasDevice == s.hasSyslog
    && (s.hasSyslog ==> s.udid.Some?)
    && (s.udidFreed ==> s.udid.Some?)
    && (forall j :: 0 <= j < |s.calls| ==> s.calls[j] == 0 || s.calls[j] == 1)
  }

  /** The variables at program start (static storage is zeroed). */
  const Initial := State([], false, false, false, false, None, false, [])

  function Min(a: int, b: int): int
  {
    if a < b then a else b
  }

  /** The part of `t` that fits in the line buffer. */
  function Truncate(t: seq<char>): (r: seq<char>)
    ensures |r| == Min(|t|, MaxLine) && r == t[..|r|]
  {
    if |t| <= MaxLine then t else t[..MaxLine]
  }

  // ---------------------------------------------------------------------
  // Line assembler and state translator

  /** `process_line`: report the line's tags to the handler, then empty the
      line. */
  function ProcessLine(s: State): (r: State)
    requires Inv(s)
    ensures Inv(r) && r.line == []
    ensures |s.calls| <= |r.calls| <= |s.calls| + 5 && r.calls[..|s.calls|] == s.calls
    ensures r.(line := s.line, calls := s.calls) == s
  {
    s.(line := [], calls := s.calls + LineCalls(s.line))
  }

  /** `syslog_callback`: one character of the device log. */
  function Feed(s: State, c: char): (r: State)
    requires Inv(s)
    ensures Inv(r)
    ensures s.oldStuff ==> r == s
    ensures !IsTerminator(c) ==> r.calls == s.calls
    ensures !s.oldStuff && IsTerminator(c) ==> r == ProcessLine(s)
    ensures !IsTerminator(c) && |s.line| == MaxLine ==> r == s
    ensures r.(line := s.line, calls := s.calls) == s
  {
    if s.oldStuff then s
    else if IsTerminator(c) then ProcessLine(s)
    else if |s.line| >= MaxLine then s
    else s.(line := s.line + [c])
  }

  /** The characters `cs` delivered one after the other. */
  function FeedAll(s: State, cs: seq<char>): (r: State)
    requires Inv(s)
    ensures Inv(r)
    ensures |s.calls| <= |r.calls| && r.calls[..|s.calls|] == s.calls
    ensures r.(line := s.line, calls := s.calls) == s
    decreases |cs|
  {
    if cs == [] then s else FeedAll(Feed(s, cs[0]), cs[1..])
  }

  lemma {:induction false} FeedAllAppend(s: State, a: seq<char>, b: seq<char>)
    requires Inv(s)
    ensures FeedAll(s, a + b) == FeedAll(FeedAll(s, a), b)
    decreases |a|
  {
    if a == [] {
      assert a + b == b;
    } else {
      assert (a + b)[0] == a[0] && (a + b)[1..] == a[1..] + b;
      FeedAllAppend(Feed(s, a[0]), a[1..], b);
    }
  }

  /** While `old_stuff` is set, no character changes anything: the buffer,
      the cursor and the handler calls all stay as they were. */
  lemma {:induction false} FeedAllIgnored(s: State, cs: seq<char>)
    requires Inv(s) && s.oldStuff
    ensures FeedAll(s, cs) == s
    decreases |cs|
  {
    if cs != [] {
      FeedAllIgnored(Feed(s, cs[0]), cs[1..]);
    }
  }

  /** Characters other than terminators are appended to the line until it
      holds 199 of them; later ones are dropped. Nothing else changes. */
  lemma {:induction false} FeedAllAssembles(s: State, cs: seq<char>)
    requires Inv(s) && !s.oldStuff && NoTerminator(cs)
    ensures FeedAll(s, cs) == s.(line := Truncate(s.line + cs))
    decreases |cs|
  {
    if cs == [] {
      assert s.line + cs == s.line;
    } else {
      var s1 := Feed(s, cs[0]);
      assert NoTerminator(cs[1..]) by {
        forall j | 0 <= j < |cs[1..]| ensures !IsTerminator(cs[1..][j]) {
          assert cs[1..][j] == cs[j + 1];
        }
      }
      FeedAllAssembles(s1, cs[1..]);
      if |s.line| < MaxLine {
        assert s1.line + cs[1..] == s.line + cs;
      } else {
        assert (s.line + cs[1..])[..MaxLine] == s.line;
        assert (s.line + cs)[..MaxLine] == s.line;
      }
    }
  }

  /** From an empty line, feeding n non-terminator characters leaves exactly
      the first min(n, 199) of them in the buffer, in order. */
  lemma AssemblyFromEmptyLine(s: State, cs: seq<char>)
    requires Inv(s) && !s.oldStuff && s.line == [] && NoTerminator(cs)
    ensures FeedAll(s, cs) == s.(line := cs[..Min(|cs|, MaxLine)])
  {
    FeedAllAssembles(s, cs);
    assert s.line + cs == cs;
  }

  /** A line followed by a terminator: the (possibly truncated) line is
      matched once, its handler calls are appended, the buffer is emptied. */
  lemma FeedLine(s: State, text: seq<char>, t: char)
    requires Inv(s) && !s.oldStuff && NoTerminator(text) && IsTerminator(t)
    ensures FeedAll(s, text + [t]) ==
      s.(line := [], calls := s.calls + LineCalls(Truncate(s.line + text)))
  {
    FeedAllAppend(s, text, [t]);
    FeedAllAssembles(s, text);
    var s1 := FeedAll(s, text);
    assert [t][1..] == [];
    assert FeedAll(s1, [t]) == FeedAll(Feed(s1, t), []);
  }

  // ---------------------------------------------------------------------
  // Capture session

  /** `start_logging`, called only while no capture runs. The result pairs
      the new state with the return value (0 or -1). */
  function Start(s: State, o: StartOutcome): (r: (State, int))
    requires Inv(s) && !s.hasSyslog && s.udid.Some?
    ensures Inv(r.0) && r.0.line == []
    ensures r.1 == 0 || r.1 == -1
    ensures r.1 == 0 <==> o.deviceFound && o.relayStarted && o.captureStarted
    ensures r.1 == 0 <==> r.0.hasDevice && r.0.hasSyslog
    ensures r.1 != 0 ==> !r.0.hasDevice && !r.0.hasSyslog
    ensures r.0.(line := s.line, hasDevice := s.hasDevice, hasSyslog := s.hasSyslog) == s
  {
    var s1 := s.(line := []);
    if !o.deviceFound then
      (s1, -1)                                          // device left as it was
    else if !o.relayStarted then
      (s1.(hasDevice := false), -1)                     // device freed
    else if !o.captureStarted then
      (s1.(hasDevice := false, hasSyslog := false), -1) // syslog, then device freed
    else
      (s1.(hasDevice := true, hasSyslog := true), 0)
  }

  /** `stop_logging`: releases whatever is held; no effect when idle. */
  function Stop(s: State): (r: State)
    requires Inv(s)
    ensures Inv(r) && !r.hasDevice && !r.hasSyslog
    ensures !s.hasSyslog ==> r == s
    ensures r.(hasDevice := s.hasDevice, hasSyslog := s.hasSyslog) == s
  {
    s.(hasSyslog := false).(hasDevice := false)
  }

  lemma StopIsIdempotent(s: State)
    requires Inv(s)
    ensures Stop(Stop(s)) == Stop(s)
  {
  }

  /** After a stop, a start whose three calls succeed captures again. */
  lemma RestartAfterStop(s: State, o: StartOutcome)
    requires Inv(s) && s.udid.Some? && o.deviceFound && o.relayStarted && o.captureStarted
    ensures Start(Stop(s), o).1 == 0 && Start(Stop(s), o).0.hasSyslog
  {
  }

  // ---------------------------------------------------------------------
  // Device event controller

  /** `device_event_cb`. Events arrive only while subscribed, so never after
      `atv_stop` has freed the remembered udid. */
  function OnEvent(s: State, e: Event, o: StartOutcome): (r: State)
    requires Inv(s) && !s.udidFreed
    ensures Inv(r) && !r.udidFreed
    ensures r.calls == s.calls && r.oldStuff == s.oldStuff && r.subscribed == s.subscribed
    // ADD while capturing, and every event but ADD and matching REMOVE: no effect
    ensures e.kind == Add && s.hasSyslog ==> r == s
    ensures e.kind == Remove && !(s.hasSyslog && s.udid == Some(e.udid)) ==> r == s
    ensures e.kind == Paired ==> r == s
    // REMOVE of the captured device stops the capture
    ensures e.kind == Remove && s.hasSyslog && s.udid == Some(e.udid) ==> r == Stop(s)
    // the first ADD remembers its udid, whether or not the start succeeds;
    // a remembered udid never changes
    ensures e.kind == Add && s.udid.None? ==> r.udid == Some(e.udid)
    ensures s.udid.Some? ==> r.udid == s.udid
    // a capture starts only on an ADD of the remembered udid
    ensures r.hasSyslog && !s.hasSyslog ==> e.kind == Add && r.udid == Some(e.udid)
    // an ADD of another device than the remembered one changes nothing
    ensures e.kind == Add && s.udid.Some? && s.udid != Some(e.udid) ==> r == s
    // an ADD of the first or the remembered udid while idle calls
    // start_logging: the line is reset, and the capture runs exactly when
    // the three library calls succeed
    ensures e.kind == Add && !s.hasSyslog && (s.udid.None? || s.udid == Some(e.udid)) ==>
      r.line == [] && (r.hasSyslog <==> o.deviceFound && o.relayStarted && o.captureStarted)
  {
    match e.kind
    case Add =>
      if s.hasSyslog then s
      else
        var s1 := if s.udid.None? then s.(udid := Some(e.udid)) else s;
        if s1.udid == Some(e.udid) then Start(s1, o).0 else s1
    case Remove =>
      if s.hasSyslog && s.udid == Some(e.udid) then Stop(s) else s
    case Paired =>
      s
  }

  // ---------------------------------------------------------------------
  // Library entry points

  /** `atv_init` up to its five-second wait: with no device listed it
      returns without subscribing; otherwise it subscribes to device events
      and sets `old_stuff`. */
  function Init(s: State, deviceCount: nat): (r: State)
    requires Inv(s)
    ensures Inv(r)
    ensures deviceCount == 0 ==> r == s
    ensures deviceCount > 0 ==> r.subscribed && r.oldStuff
    ensures r.(subscribed := s.subscribed, oldStuff := s.oldStuff) == s
  {
    if deviceCount == 0 then s else s.(subscribed := true, oldStuff := true)
  }

  /** The end of `atv_init`'s wait: `old_stuff` is cleared. */
  function EndSkip(s: State): (r: State)
    requires Inv(s)
    ensures Inv(r) && !r.oldStuff && r.(oldStuff := s.oldStuff) == s
  {
    s.(oldStuff := false)
  }

  /** `atv_stop`: unsubscribe, stop logging, free the remembered udid
      (without clearing it, so a second call would free it twice). */
  function Shutdown(s: State): (r: State)
    requires Inv(s) && !s.udidFreed
    ensures Inv(r) && !r.subscribed && !r.hasDevice && !r.hasSyslog
    ensures r.udidFreed <==> s.udid.Some?
    ensures r.line == s.line && r.calls == s.calls && r.oldStuff == s.oldStuff && r.udid == s.udid
  {
    Stop(s.(subscribed := false)).(udidFreed := s.udid.Some?)
  }

  // ---------------------------------------------------------------------
  // Runs of callbacks

  /** One callback: a log character or a device event. */
  datatype Input = Char(c: char) | Device(event: Event, outcome: StartOutcome)

  /** One callback. Device events are delivered only while subscribed. */
  function Step(s: State, x: Input): (r: State)
    requires Inv(s) && !s.udidFreed
    ensures Inv(r) && !r.udidFreed && r.subscribed == s.subscribed
    ensures s.udid.Some? ==> r.udid == s.udid
    ensures x.Device? && !s.subscribed ==> r == s
    ensures x.Device? && s.subscribed ==> r == OnEvent(s, x.event, x.outcome)
    ensures x.Char? ==> r == Feed(s, x.c)
  {
    match x
    case Char(c) => Feed(s, c)
    case Device(e, o) => if s.subscribed then OnEvent(s, e, o) else s
  }

  /** The callbacks `xs` delivered one after the other. */
  function Run(s: State, xs: seq<Input>): (r: State)
    requires Inv(s) && !s.udidFreed
    ensures Inv(r) && !r.udidFreed
    ensures s.udid.Some? ==> r.udid == s.udid
    decreases |xs|
  {
    if xs == [] then s else Run(Step(s, xs[0]), xs[1..])
  }

  /** The udid of the first ADD event among `xs`. */
  function FirstAdded(xs: seq<Input>): Option<string>
  {
    if xs == [] then None
    else if xs[0].Device? && xs[0].event.kind == Add then Some(xs[0].event.udid)
    else FirstAdded(xs[1..])
  }

  /** While subscribed, the first ADD event of a run fixes the udid for the
      rest of the run, whether or not its capture starts and whatever comes
      after. */
  lemma {:induction false} RunRemembersFirstAdded(s: State, xs: seq<Input>)
    requires Inv(s) && !s.udidFreed && s.udid.None? && s.subscribed
    ensures Run(s, xs).udid == FirstAdded(xs)
    decreases |xs|
  {
    if xs != [] {
      var s1 := Step(s, xs[0]);
      if !(xs[0].Device? && xs[0].event.kind == Add) {
        RunRemembersFirstAdded(s1, xs[1..]);
      }
    }
  }

  /** Hence a capture at the end of any run belongs to the first device that
      was added during it. */
  lemma RunCapturesFirstAdded(s: State, xs: seq<Input>)
    requires Inv(s) && !s.udidFreed && s.udid.None? && s.subscribed
    ensures Run(s, xs).hasSyslog ==> Run(s, xs).udid == FirstAdded(xs) != None
  {
    RunRemembersFirstAdded(s, xs);
  }

  /** Without a subscription no capture ever starts, whatever characters
      and device events follow. */
  lemma {:induction false} UnsubscribedStaysIdle(s: State, xs: seq<Input>)
    requires Inv(s) && !s.udidFreed && !s.subscribed && !s.hasSyslog
    ensures !Run(s, xs).subscribed && !Run(s, xs).hasSyslog && Run(s, xs).udid == s.udid
    decreases |xs|
  {
    if xs != [] {
      UnsubscribedStaysIdle(Step(s, xs[0]), xs[1..]);
    }
  }

  /** `atv_init` with no device listed does not subscribe, so a device
      attached afterwards is never captured. */
  lemma NoDeviceAtInitNeverCaptures(xs: seq<Input>)
    ensures !Run(EndSkip(Init(Initial, 0)), xs).hasSyslog
  {
    UnsubscribedStaysIdle(EndSkip(Init(Initial, 0)), xs);
  }

  // ---------------------------------------------------------------------
  // Scenarios

  /** Attach "ABC", attach "XYZ", detach "XYZ", detach "ABC". */
  lemma AttachDetachScenario(o: StartOutcome)
    requires o.deviceFound && o.relayStarted && o.captureStarted
    ensures var s1 := OnEvent(Initial, Event(Add, "ABC"), o);
            var s2 := OnEvent(s1, Event(Add, "XYZ"), o);
            var s3 := OnEvent(s2, Event(Remove, "XYZ"), o);
            var s4 := OnEvent(s3, Event(Remove, "ABC"), o);
            && s1.hasSyslog && s1.udid == Some("ABC")
            && s2 == s1 && s3 == s1
            && !s4.hasSyslog && !s4.hasDevice && s4.udid == Some("ABC") && s4.calls == []
  {
  }

  /** An ADD whose device cannot be opened leaves the session idle, yet the
      udid is remembered. */
  lemma DeviceNotFoundScenario(o: StartOutcome)
    requires !o.deviceFound
    ensures var s1 := OnEvent(Initial, Event(Add, "ABC"), o);
            !s1.hasSyslog && !s1.hasDevice && s1.udid == Some("ABC") && s1.calls == []
  {
  }

  // Proof helpers for the scenarios below: facts about single characters
  // of the marker literals, one fact per lemma so that each proof stays
  // small, and a regrouping of appended characters.

  lemma NoTerminatorByAbsence(cs: seq<char>)
    requires '\r' !in cs && '\n' !in cs
    ensures NoTerminator(cs)
  {
  }

  lemma AppendTwo(a: seq<char>, c1: char, c2: char)
    ensures a + [c1, c2] == (a + [c1]) + [c2]
  {
  }

  lemma MarkersHoldNoTerminator()
    ensures '\r' !in SleepTag12 && '\n' !in SleepTag12
    ensures '\r' !in SiriTag16 && '\n' !in SiriTag16
  {
    NoReturnInSleepTag12();
    NoNewlineInSleepTag12();
    NoReturnInSiriTag16();
    NoNewlineInSiriTag16();
  }

  lemma NoReturnInSleepTag12() ensures '\r' !in SleepTag12 {}
  lemma NoNewlineInSleepTag12() ensures '\n' !in SleepTag12 {}
  lemma NoReturnInSiriTag16() ensures '\r' !in SiriTag16 {}
  lemma NoNewlineInSiriTag16() ensures '\n' !in SiriTag16 {}

  /** A line of the given text delivered into an empty buffer appends the
      line's calls and leaves the buffer empty. */
  lemma FeedShortLine(s: State, text: seq<char>, t: char)
    requires Inv(s) && !s.oldStuff && s.line == []
    requires '\r' !in text && '\n' !in text && |text| <= MaxLine && IsTerminator(t)
    ensures FeedAll(s, text + [t]) == s.(calls := s.calls + LineCalls(text))
  {
    NoTerminatorByAbsence(text);
    FeedLine(s, text, t);
    assert s.line + text == text;
  }

  /** A line that consists of exactly the tvOS 12 sleep marker yields no
      handler call: the marker ends on the line's last character. */
  lemma SleepLineAsWritten(s: State)
    requires Inv(s) && !s.oldStuff && s.line == []
    ensures FeedAll(s, SleepTag12 + "\n") == s
  {
    SleepMarkerAlone();
    MarkersHoldNoTerminator();
    FeedShortLine(s, SleepTag12, '\n');
    assert s.calls + [] == s.calls;
  }

  /** The same marker followed by one more character yields exactly one
      call, with state 0. */
  lemma SleepLineWithTrailingText(s: State)
    requires Inv(s) && !s.oldStuff && s.line == []
    ensures FeedAll(s, SleepTag12 + [' ', '\n']) == s.(calls := s.calls + [0])
  {
    SleepMarkerWithTrailer();
    MarkersHoldNoTerminator();
    AppendTwo(SleepTag12, ' ', '\n');
    FeedShortLine(s, SleepTag12 + [' '], '\n');
  }

  /** A line that consists of exactly the tvOS 16 Siri marker yields no
      handler call. */
  lemma SiriLineAsWritten(s: State)
    requires Inv(s) && !s.oldStuff && s.line == []
    ensures FeedAll(s, SiriTag16 + "\r") == s
  {
    SiriMarkerAlone();
    MarkersHoldNoTerminator();
    FeedShortLine(s, SiriTag16, '\r');
    assert s.calls + [] == s.calls;
  }

  /** The same marker followed by one more character yields exactly one
      call, with state 1. */
  lemma SiriLineWithTrailingText(s: State)
    requires Inv(s) && !s.oldStuff && s.line == []
    ensures FeedAll(s, SiriTag16 + [' ', '\r']) == s.(calls := s.calls + [1])
  {
    SiriMarkerWithTrailer();
    MarkersHoldNoTerminator();
    AppendTwo(SiriTag16, ' ', '\r');
    FeedShortLine(s, SiriTag16 + [' '], '\r');
  }
}
