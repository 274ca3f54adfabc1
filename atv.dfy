/**
 * The library state of atv.c as one object: the 200-character line buffer
 * and its cursor, the `old_stuff` flag, the device and relay handles, the
 * remembered udid, and the record of handler calls. Each method does what
 * the C function of the same role does, step by step, and is proved to
 * refine the matching transition of module AtvModel.
 */
module Atv {
  import opened TagMatcher
  import opened AtvModel

  class Monitor {
    const lineBuffer: array<char>
    var linePos: int
    var oldStuff: bool
    var subscribed: bool
    var hasDevice: bool
    var hasSyslog: bool
    var udid: Option<string>
    var udidFreed: bool
    /** The argument of every `update_handler` call so far. */
    var calls: seq<int>

    ghost function Model(): State
      reads this, lineBuffer
      requires 0 <= linePos <= lineBuffer.Length
    {
      State(lineBuffer[..linePos], oldStuff, subscribed, hasDevice, hasSyslog, udid, udidFreed, calls)
    }

    ghost predicate Valid()
      reads this, lineBuffer
    {
      lineBuffer.Length == BufferSize && 0 <= linePos <= MaxLine && Inv(Model())
    }

    /** The state of the library when the program starts. */
    constructor ()
      ensures Valid() && fresh(lineBuffer) && Model() == Initial
    {
      lineBuffer := new char[BufferSize](_ => '\0');
      linePos := 0;
      oldStuff := false;
      subscribed := false;
      hasDevice := false;
      hasSyslog := false;
      udid := None;
      udidFreed := false;
      calls := [];
    }

    /** `find_tag`: scans the start positions `0 <= i < line_pos - tag_len`
        and compares `tag_len` characters with `strncmp`. */
    method FindTag(tag: string) returns (found: bool)
      requires 0 <= linePos <= lineBuffer.Length && '\0' !in tag
      ensures found == TagMatcher.FindTag(lineBuffer[..linePos], tag)
    {
      var tagLen := |tag|;
      var i := 0;
      while i < linePos - tagLen
        invariant 0 <= i
        invariant forall j :: 0 <= j < i ==> !OccursAt(lineBuffer[..linePos], tag, j)
      {
        assert lineBuffer[..linePos][i..i + tagLen] == lineBuffer[i..i + tagLen];
        assert tag[..tagLen] == tag && lineBuffer[i..i + tagLen][..tagLen] == lineBuffer[i..i + tagLen];
        StrNEqualWithoutNul(tag, lineBuffer[i..i + tagLen], tagLen);
        if StrNEqual(tag, lineBuffer[i..i + tagLen], tagLen) {
          assert OccursAt(lineBuffer[..linePos], tag, i);
          return true;
        }
        i := i + 1;
      }
      return false;
    }

    /** One `if (find_tag(tag)) update_handler(state)` statement of
        `process_line`. */
    method NotifyIfFound(tag: string, state: int)
      requires 0 <= linePos <= lineBuffer.Length && '\0' !in tag
      modifies this
      ensures linePos == old(linePos)
      ensures Model() == old(Model()).(calls := old(calls) + Call(TagMatcher.FindTag(old(Model()).line, tag), state))
    {
      var found := FindTag(tag);
      if found {
        calls := calls + [state];
      }
    }

    /** `process_line`: the five tags in declaration order, one handler call
        per tag found, then the cursor goes back to 0. */
    method ProcessLine()
      requires Valid()
      modifies this
      ensures Valid() && Model() == AtvModel.ProcessLine(old(Model()))
    {
      TagsHaveNoNul();
      ghost var m := Model();
      NotifyIfFound(SleepTag12, 0);
      NotifyIfFound(SleepTag13, 0);
      NotifyIfFound(SleepTag16, 0);
      NotifyIfFound(SiriTag, 1);
      NotifyIfFound(SiriTag16, 1);
      assert calls == m.calls + LineCalls(m.line) by {
        LineCallsAsWritten(m.line);
        AppendFive(m.calls, Call(TagMatcher.FindTag(m.line, SleepTag12), 0), Call(TagMatcher.FindTag(m.line, SleepTag13), 0),
          Call(TagMatcher.FindTag(m.line, SleepTag16), 0), Call(TagMatcher.FindTag(m.line, SiriTag), 1),
          Call(TagMatcher.FindTag(m.line, SiriTag16), 1));
      }
      linePos := 0;
      assert Model() == AtvModel.ProcessLine(m);
    }

    /** `syslog_callback`: one character of the device log. A terminator
        writes the NUL at the cursor and processes the line; any other
        character is stored unless 199 are already held. */
    method SyslogCallback(c: char)
      requires Valid()
      modifies this, lineBuffer
      ensures Valid() && Model() == Feed(old(Model()), c)
      ensures !old(oldStuff) && IsTerminator(c) ==> lineBuffer[old(linePos)] == '\0'
      ensures forall j :: 0 <= j < lineBuffer.Length && j != old(linePos) ==> lineBuffer[j] == old(lineBuffer[j])
      ensures old(oldStuff) || (!IsTerminator(c) && old(linePos) == MaxLine) ==> lineBuffer[..] == old(lineBuffer[..])
    {
      if oldStuff {
        return;
      }
      if c == '\r' || c == '\n' {
        lineBuffer[linePos] := '\0';
        assert lineBuffer[..linePos] == old(lineBuffer[..linePos]);
        ProcessLine();
        return;
      }
      if linePos >= BufferSize - 1 {
        return;
      }
      lineBuffer[linePos] := c;
      linePos := linePos + 1;
      assert lineBuffer[..linePos] == old(lineBuffer[..linePos]) + [c];
    }

    /** `start_logging`: open the device, start the relay service, start the
        capture; each failure undoes what was acquired and returns -1. */
    method StartLogging(o: StartOutcome) returns (status: int)
      requires Valid() && !hasSyslog && udid.Some?
      modifies this
      ensures Valid() && (Model(), status) == Start(old(Model()), o)
    {
      linePos := 0;
      if !o.deviceFound {
        return -1;
      }
      hasDevice := true;
      if !o.relayStarted {
        hasDevice := false;
        return -1;
      }
      hasSyslog := true;
      if !o.captureStarted {
        hasSyslog := false;
        hasDevice := false;
        return -1;
      }
      return 0;
    }

    /** `stop_logging`: release the relay, then the device, each only when
        held. */
    method StopLogging()
      requires Valid()
      modifies this
      ensures Valid() && Model() == Stop(old(Model()))
    {
      if hasSyslog {
        hasSyslog := false;
      }
      if hasDevice {
        hasDevice := false;
      }
    }

    /** `device_event_cb`. */
    method DeviceEventCb(e: Event, o: StartOutcome)
      requires Valid() && !udidFreed
      modifies this
      ensures Valid() && Model() == OnEvent(old(Model()), e, o)
    {
      if e.kind == Add {
        if !hasSyslog {
          if udid.None? {
            udid := Some(e.udid);
          }
          if udid.value == e.udid {
            var status := StartLogging(o);
          }
        }
      } else if e.kind == Remove {
        if hasSyslog && udid.value == e.udid {
          StopLogging();
        }
      }
    }

    /** `atv_init` up to its wait: `deviceCount` is the number of devices
        `idevice_get_device_list` reports. */
    method AtvInit(deviceCount: nat)
      requires Valid()
      modifies this
      ensures Valid() && Model() == Init(old(Model()), deviceCount)
    {
      if deviceCount == 0 {
        return;
      }
      subscribed := true;
      oldStuff := true;
    }

    /** The end of `atv_init`'s wait. */
    method EndSkip()
      requires Valid()
      modifies this
      ensures Valid() && Model() == AtvModel.EndSkip(old(Model()))
    {
      oldStuff := false;
    }

    /** `atv_stop`. */
    method AtvStop()
      requires Valid() && !udidFreed
      modifies this
      ensures Valid() && Model() == Shutdown(old(Model()))
    {
      subscribed := false;
      StopLogging();
      if udid.Some? {
        udidFreed := true;
      }
    }
  }

  /** Sequence helper: the handler calls appended one statement at a time
      equal the calls of the whole line appended at once. */
  lemma AppendFive(s: seq<int>, a: seq<int>, b: seq<int>, c: seq<int>, d: seq<int>, e: seq<int>)
    ensures s + a + b + c + d + e == s + (a + b + c + d + e)
  {
  }
}
