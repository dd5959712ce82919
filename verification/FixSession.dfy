/** A FIX session: outgoing messages are stamped, numbered and written; incoming
    bytes are framed, parsed and queued for dispatch. */
module FixSession {
  import opened Optional
  import opened Text
  import opened FixMessage
  import opened FixFraming

  datatype State = Disconnected | Connecting | LogonSent | LoggedOn | LogoutSent | Closing

  datatype Config = Config(sender: string, target: string, username: string, password: string,
                           heartBtInt: int, resetSeqNumbers: bool)

  /** Sending can fail after the sequence number has been taken, and even after
      the bytes have been written, when draining the connection fails. */
  datatype SendOutcome = Sent | DrainFailed | EncodeError | NotConnected

  /** The outcome, given the text, the connection and how draining would end. */
  function OutcomeOf(fs: Fields, connected: bool, drains: bool): SendOutcome {
    if !Ascii(EncodeStr(fs)) then EncodeError
    else if !connected then NotConnected
    else if drains then Sent else DrainFailed
  }

  predicate OnTheWire(outcome: SendOutcome) { outcome in {Sent, DrainFailed} }

  const MSG_SEQ_NUM := 34
  const SENDING_TIME := 52

  /** The fields of an outgoing message: comp ids, number, and a timestamp
      unless the caller supplied one. */
  function Stamped(fs: Fields, config: Config, number: int, now: string): Fields {
    var f := Put(Put(Put(fs, 49, config.sender), 56, config.target), MSG_SEQ_NUM, IntText(number));
    if Lookup(f, SENDING_TIME).None? then Put(f, SENDING_TIME, now) else f
  }

  /** The logon message of a session: eight fixed fields and three optional ones. */
  function LogonFields(config: Config, number: int, now: string): Fields {
    [Field(8, "FIX.4.4"), Field(49, config.sender), Field(56, config.target),
     Field(MSG_SEQ_NUM, IntText(number)), Field(35, "A"), Field(SENDING_TIME, now),
     Field(98, "0"), Field(108, IntText(config.heartBtInt))]
    + (if config.resetSeqNumbers then [Field(141, "Y")] else [])
    + (if config.username != "" then [Field(553, config.username)] else [])
    + (if config.password != "" then [Field(554, config.password)] else [])
  }

  /** What a caller can rely on in a stamped message. */
  lemma {:induction false} StampedFields(fs: Fields, config: Config, number: int, now: string, t: int)
    ensures var r := Stamped(fs, config, number, now);
            Lookup(r, t) == if t == MSG_SEQ_NUM then Some(IntText(number))
                            else if t == 56 then Some(config.target)
                            else if t == 49 then Some(config.sender)
                            else if t == SENDING_TIME && Lookup(fs, t).None? then Some(now)
                            else Lookup(fs, t)
  {
    var f1 := Put(fs, 49, config.sender);
    var f2 := Put(f1, 56, config.target);
    var f3 := Put(f2, MSG_SEQ_NUM, IntText(number));
    LookupPut(fs, 49, config.sender, t);
    LookupPut(f1, 56, config.target, t);
    LookupPut(f2, MSG_SEQ_NUM, IntText(number), t);
    LookupPut(f3, SENDING_TIME, now, t);
  }

  lemma StampedUnique(fs: Fields, config: Config, number: int, now: string)
    requires Unique(fs)
    ensures Unique(Stamped(fs, config, number, now))
  {
    var f1 := Put(fs, 49, config.sender);
    var f2 := Put(f1, 56, config.target);
    PutUnique(fs, 49, config.sender);
    PutUnique(f1, 56, config.target);
    PutUnique(f2, MSG_SEQ_NUM, IntText(number));
    PutUnique(Put(f2, MSG_SEQ_NUM, IntText(number)), SENDING_TIME, now);
  }

  lemma LogonNumbered(config: Config, number: int, now: string)
    ensures Unique(LogonFields(config, number, now))
    ensures Lookup(LogonFields(config, number, now), MSG_SEQ_NUM) == Some(IntText(number))
  {
    var fs := LogonFields(config, number, now);
    assert fs[3] == Field(MSG_SEQ_NUM, IntText(number));
    LookupUnique(fs, 3);
  }

  /** In a message with distinct tags every field is what its tag looks up. */
  lemma {:induction false} LookupUnique(fs: Fields, i: nat)
    requires Unique(fs) && i < |fs|
    ensures Lookup(fs, fs[i].tag) == Some(fs[i].value)
  {
    if i > 0 {
      LookupUnique(fs[1..], i - 1);
    }
  }

  /** The printed form of a message looks up the same values, except in the
      three computed fields. */
  lemma {:induction false} LookupPrinted(fs: Fields, t: int)
    requires Unique(fs) && t !in {8, 9, 10}
    ensures Lookup(Printed(fs), t) == Lookup(fs, t)
  {
    hide Pad3, Checksum, Prefix, BodyLength, IntText, Lookup;
    var p, b := Printed(fs), BodyFields(fs);
    PrintedUnique(fs);
    LookupMember(fs, t);
    LookupMember(p, t);
    if Lookup(fs, t).Some? {
      var f := Field(t, Lookup(fs, t).value);
      assert f in b;
      var i :| 0 <= i < |b| && b[i] == f;
      assert p[i + 2] == f;
      LookupUnique(p, i + 2);
    }
  }

  /** What a tag of the logon message holds. */
  function LogonValue(config: Config, number: int, now: string, t: int): Option<string> {
    if t == 8 then Some("FIX.4.4")
    else if t == 35 then Some("A")
    else if t == 34 then Some(IntText(number))
    else if t == 49 then Some(config.sender)
    else if t == 52 then Some(now)
    else if t == 56 then Some(config.target)
    else if t == 98 then Some("0")
    else if t == 108 then Some(IntText(config.heartBtInt))
    else if t == 141 && config.resetSeqNumbers then Some("Y")
    else if t == 553 && config.username != "" then Some(config.username)
    else if t == 554 && config.password != "" then Some(config.password)
    else None
  }

  lemma {:induction false} LogonLookup(config: Config, number: int, now: string, t: int)
    ensures Lookup(LogonFields(config, number, now), t) == LogonValue(config, number, now, t)
  {
    var fs, v := LogonFields(config, number, now), LogonValue(config, number, now, t);
    LogonNumbered(config, number, now);
    LookupMember(fs, t);
    hide Lookup, IntText;
    if v.Some? {
      LogonHas(config, number, now, t);
      hide LogonFields, LogonValue;
      var i :| 0 <= i < |fs| && fs[i] == Field(t, v.value);
      LookupUnique(fs, i);
    } else {
      LogonHasNot(config, number, now, t);
    }
  }

  lemma {:induction false} LogonHasNot(config: Config, number: int, now: string, t: int)
    requires LogonValue(config, number, now, t).None?
    ensures var fs := LogonFields(config, number, now); forall i :: 0 <= i < |fs| ==> fs[i].tag != t
  {
    hide IntText;
  }

  lemma {:induction false} LogonHas(config: Config, number: int, now: string, t: int)
    requires LogonValue(config, number, now, t).Some?
    ensures Field(t, LogonValue(config, number, now, t).value) in LogonFields(config, number, now)
  {
    hide IntText;
    var fs := LogonFields(config, number, now);
    assert fs[0].tag == 8 && fs[1].tag == 49 && fs[2].tag == 56 && fs[3].tag == 34;
    assert fs[4].tag == 35 && fs[5].tag == 52 && fs[6].tag == 98 && fs[7].tag == 108;
    var n := if config.resetSeqNumbers then 9 else 8;
    var m := if config.username != "" then n + 1 else n;
    assert t == 141 ==> fs[8] == Field(141, "Y");
    assert t == 553 ==> fs[n] == Field(553, config.username);
    assert t == 554 ==> fs[m] == Field(554, config.password);
  }

  /** The logon as the other side reads it: a clean configuration arrives tag by
      tag, and nothing else does but the computed length and checksum. */
  lemma {:induction false} LogonArrives(config: Config, number: int, now: string, t: int)
    requires Clean(config.sender) && Clean(config.target) && Clean(config.username) && Clean(config.password) && Clean(now)
    ensures var got := Parse(EncodeStr(LogonFields(config, number, now)));
            t !in {8, 9, 10} ==> Lookup(got, t) == LogonValue(config, number, now, t)
    ensures Lookup(Parse(EncodeStr(LogonFields(config, number, now))), 8) == Some("FIX.4.4")
  {
    var fs := LogonFields(config, number, now);
    LogonNumbered(config, number, now);
    LogonLookup(config, number, now, t);
    LogonLookup(config, number, now, 8);
    LogonClean(config, number, now);
    hide EncodeStr, Parse, LogonFields, Lookup, LogonValue;
    ParseEncodeIff(fs);
    PrintedUnique(fs);
    LookupUnique(Printed(fs), 0);
    if t !in {8, 9, 10} {
      LookupPrinted(fs, t);
    }
  }

  lemma {:induction false} LogonClean(config: Config, number: int, now: string)
    requires Clean(config.sender) && Clean(config.target) && Clean(config.username) && Clean(config.password) && Clean(now)
    ensures var fs := LogonFields(config, number, now);
            BeginString(fs) == "FIX.4.4" && Clean(BeginString(fs)) && AllClean(BodyFields(fs))
  {
    LogonLookup(config, number, now, 8);
    LogonValuesClean(config, number, now);
    BodyClean(LogonFields(config, number, now));
    hide LogonFields, AllClean, BodyFields, Lookup;
  }

  lemma {:induction false} LogonValuesClean(config: Config, number: int, now: string)
    requires Clean(config.sender) && Clean(config.target) && Clean(config.username) && Clean(config.password) && Clean(now)
    ensures AllClean(LogonFields(config, number, now))
  {
    NoSohInIntText(number);
    NoSohInIntText(config.heartBtInt);
    hide IntText;
    assert Clean("FIX.4.4") && Clean("A") && Clean("0") && Clean("Y");
    assert Clean(IntText(number)) && Clean(IntText(config.heartBtInt));
    hide Clean;
  }

  lemma {:induction false} BodyClean(fs: Fields)
    requires AllClean(fs)
    ensures AllClean(BodyFields(fs))
  {
    hide BodyFields, Clean;
    var b := BodyFields(fs);
    forall i | 0 <= i < |b|
      ensures Clean(b[i].value)
    {
      assert b[i] in fs;
    }
  }

  /** A message is on the wire exactly when there is a connection and its text is
      ASCII; it counts as sent only when draining succeeds as well. */
  lemma OutcomeMeans(fs: Fields, connected: bool, drains: bool)
    ensures var o := OutcomeOf(fs, connected, drains);
            && (OnTheWire(o) <==> connected && Encode(fs).Some?)
            && (o == Sent <==> OnTheWire(o) && drains)
            && (o == EncodeError <==> Encode(fs).None?)
  {
    hide EncodeStr;
  }

  /** A log of sent messages with the numbers they carry: strictly increasing,
      all below the next number to be used. */
  ghost predicate Numbered(log: seq<Fields>, numbers: seq<int>, next: int) {
    && |numbers| == |log|
    && (forall i :: 0 <= i < |log| ==> Unique(log[i]))
    && (forall i :: 0 <= i < |log| ==> Lookup(log[i], MSG_SEQ_NUM) == Some(IntText(numbers[i])))
    && (forall i, j :: 0 <= i < j < |numbers| ==> numbers[i] < numbers[j])
    && (forall i :: 0 <= i < |numbers| ==> numbers[i] < next)
  }

  lemma {:induction false} NumberedStep(log: seq<Fields>, numbers: seq<int>, next: int, fs: Fields)
    requires Numbered(log, numbers, next)
    requires Unique(fs) && Lookup(fs, MSG_SEQ_NUM) == Some(IntText(next))
    ensures Numbered(log + [fs], numbers + [next], next + 1)
  {
  }

  lemma {:induction false} ConcatSnoc(parts: seq<string>, last: string)
    ensures Concat(parts + [last]) == Concat(parts) + last
  {
    if |parts| == 0 {
      assert parts + [last] == [last];
      assert Concat([last]) == last + "";
    } else {
      ConcatSnoc(parts[1..], last);
      assert (parts + [last])[1..] == parts[1..] + [last];
    }
  }

  lemma WiresSnoc(log: seq<Fields>, fs: Fields)
    ensures Concat(Wires(log + [fs])) == Concat(Wires(log)) + EncodeStr(fs)
  {
    hide EncodeStr, Concat;
    assert Wires(log + [fs]) == Wires(log) + [EncodeStr(fs)];
    ConcatSnoc(Wires(log), EncodeStr(fs));
  }

  /** From one session to the other: what was sent arrives in order under any
      chunking, and the receiver reads sequence numbers that strictly increase. */
  lemma {:induction false} TrafficArrives(log: seq<Fields>, numbers: seq<int>, next: int, chunks: seq<string>)
    requires Numbered(log, numbers, next)
    requires forall k :: 0 <= k < |log| ==> Transmittable(log[k])
    requires forall k :: 0 <= k < |chunks| ==> chunks[k] != ""
    requires Concat(chunks) == Concat(Wires(log))
    ensures var got := Delivered(ReadAll("", chunks).frames);
            && got == AllPrinted(log)
            && (forall k :: 0 <= k < |got| ==>
                  && Lookup(got[k], MSG_SEQ_NUM).Some?
                  && ParseInt(Lookup(got[k], MSG_SEQ_NUM).value) == Some(numbers[k]))
  {
    StreamRoundTrip(log, chunks);
    forall k | 0 <= k < |log|
      ensures Lookup(Printed(log[k]), MSG_SEQ_NUM) == Some(IntText(numbers[k]))
      ensures ParseInt(IntText(numbers[k])) == Some(numbers[k])
    {
      LookupPrinted(log[k], MSG_SEQ_NUM);
      ParseIntText(numbers[k]);
    }
  }

  lemma NoneDelivered()
    ensures Delivered([]) == []
  {
  }

  lemma {:induction false} OneDelivered(frames: seq<string>, raw: string)
    ensures Delivered(frames + [raw]) == Delivered(frames) + [Parse(Decode(raw))]
  {
    hide Parse, Decode;
  }

  class FIXSession {
    const config: Config
    var state: State
    var running: bool
    var seqNumOut: int
    var writer: Option<string>
    var messagesSent: nat
    var bytesSent: nat
    var messagesReceived: nat
    var bytesReceived: nat
    /** Parsed messages in the order in which their dispatch was scheduled. */
    var inbox: seq<Fields>
    ghost var log: seq<Fields>
    ghost var numbers: seq<int>

    /** The bytes on the connection are the wires of the logged messages. */
    ghost predicate Valid()
      reads this
    {
      && Numbered(log, numbers, seqNumOut)
      && (writer.Some? ==> writer.value == Concat(Wires(log)))
    }

    constructor (config: Config)
      ensures Valid() && this.config == config
      ensures state == Disconnected && !running && writer == None && seqNumOut == 1
      ensures log == [] && inbox == [] && messagesReceived == bytesReceived == messagesSent == bytesSent == 0
    {
      this.config := config;
      state, running, writer, seqNumOut := Disconnected, false, None, 1;
      messagesSent, bytesSent, messagesReceived, bytesReceived := 0, 0, 0, 0;
      inbox, log, numbers := [], [], [];
    }

    /** Stamps, numbers and writes a message; `drains` is how the awaited drain
        ends. The number is used up whatever fails. */
    method Send(msg: FIXMessage, now: string, drains: bool) returns (outcome: SendOutcome)
      requires Valid() && Unique(msg.fields)
      modifies this`seqNumOut, this`writer, this`messagesSent, this`bytesSent, this`log, this`numbers, msg
      ensures Valid()
      ensures msg.fields == Stamped(old(msg.fields), config, old(seqNumOut), now)
      ensures seqNumOut == old(seqNumOut) + 1
      ensures outcome == OutcomeOf(msg.fields, old(writer).Some?, drains)
      ensures OnTheWire(outcome) ==>
                && log == old(log) + [msg.fields] && numbers == old(numbers) + [old(seqNumOut)]
                && writer.Some? && writer.value == old(writer).value + EncodeStr(msg.fields)
      ensures !OnTheWire(outcome) ==> log == old(log) && numbers == old(numbers) && writer == old(writer)
      ensures messagesSent == old(messagesSent) + if outcome == Sent then 1 else 0
      ensures bytesSent == old(bytesSent) + if outcome == Sent then |EncodeStr(msg.fields)| else 0
    {
      hide EncodeStr, Lookup, Put, Numbered, Unique, Ascii, Wires, Concat, IntText;
      StampedUnique(msg.fields, config, seqNumOut, now);
      StampedFields(msg.fields, config, seqNumOut, now, MSG_SEQ_NUM);
      msg.Set(49, config.sender);
      msg.Set(56, config.target);
      msg.Set(MSG_SEQ_NUM, IntText(seqNumOut));
      seqNumOut := seqNumOut + 1;
      if Lookup(msg.fields, SENDING_TIME).None? {
        msg.Set(SENDING_TIME, now);
      }
      outcome := WriteMessage(msg.fields, seqNumOut - 1, drains);
      if outcome == Sent {
        messagesSent := messagesSent + 1;
      }
    }

    /** Encodes a numbered message and appends it to the connection. */
    method WriteMessage(fs: Fields, ghost number: int, drains: bool) returns (outcome: SendOutcome)
      requires Unique(fs) && Lookup(fs, MSG_SEQ_NUM) == Some(IntText(number))
      requires Numbered(log, numbers, number) && seqNumOut == number + 1
      requires writer.Some? ==> writer.value == Concat(Wires(log))
      modifies this`writer, this`bytesSent, this`log, this`numbers
      ensures Valid()
      ensures outcome == OutcomeOf(fs, old(writer).Some?, drains)
      ensures OnTheWire(outcome) ==>
                && log == old(log) + [fs] && numbers == old(numbers) + [number]
                && writer.Some? && writer.value == old(writer).value + EncodeStr(fs)
      ensures !OnTheWire(outcome) ==> log == old(log) && numbers == old(numbers) && writer == old(writer)
      ensures bytesSent == old(bytesSent) + if outcome == Sent then |EncodeStr(fs)| else 0
    {
      hide EncodeStr, IntText, Lookup;
      var data := Encode(fs);
      if data.None? {
        return EncodeError;
      }
      if writer.None? {
        return NotConnected;
      }
      writer := Some(writer.value + data.value);
      NumberedStep(log, numbers, number, fs);
      WiresSnoc(log, fs);
      hide Wires, Concat;
      log, numbers := log + [fs], numbers + [number];
      if !drains {
        return DrainFailed;
      }
      bytesSent := bytesSent + |data.value|;
      outcome := Sent;
    }

    /** Sends the logon message and waits for the answer in LOGON_SENT. */
    method SendLogon(now: string, drains: bool) returns (outcome: SendOutcome)
      requires Valid()
      modifies this`seqNumOut, this`writer, this`messagesSent, this`bytesSent, this`log, this`numbers, this`state
      ensures Valid()
      ensures seqNumOut == old(seqNumOut) + 1
      ensures var fs := LogonFields(config, old(seqNumOut), now);
              && outcome == OutcomeOf(fs, old(writer).Some?, drains)
              && log == if OnTheWire(outcome) then old(log) + [fs] else old(log)
      ensures !OnTheWire(outcome) ==> writer == old(writer)
      ensures state == if outcome == Sent then LogonSent else old(state)
      ensures messagesSent == old(messagesSent) + if outcome == Sent then 1 else 0
    {
      hide EncodeStr, Lookup, Numbered, Unique, Ascii, Wires, Concat, IntText, LogonFields;
      var fs := LogonFields(config, seqNumOut, now);
      LogonNumbered(config, seqNumOut, now);
      seqNumOut := seqNumOut + 1;
      outcome := WriteMessage(fs, seqNumOut - 1, drains);
      if outcome == Sent {
        messagesSent := messagesSent + 1;
        state := LogonSent;
      }
    }

    /** The scan loop: cuts complete frames off the buffer, parses and queues
        them, and returns what is left. */
    method ProcessBuffer(buffer: string) returns (rest: string)
      modifies this`inbox, this`messagesReceived
      ensures rest == Drain(buffer).rest
      ensures inbox == old(inbox) + Delivered(Drain(buffer).frames)
      ensures messagesReceived == old(messagesReceived) + |Drain(buffer).frames|
    {
      hide Find, Contains, ExtractBodyLength, ParseBytes, Decode, Parse, Drain, Delivered;
      rest := buffer;
      ghost var frames := [];
      NoneDelivered();
      while Contains(rest, [SOH])
        invariant Drain(buffer) == Drained(frames + Drain(rest).frames, Drain(rest).rest)
        invariant inbox == old(inbox) + Delivered(frames)
        invariant messagesReceived == old(messagesReceived) + |frames|
        decreases |rest|
      {
        DrainStep(rest);
        assert frames + [] == frames;
        var first := Find(rest, [SOH], 0);
        FoundIff(rest, [SOH]);
        var second := Find(rest, [SOH], first.value + 1);
        if second.None? {
          return;
        }
        if ExtractBodyLength(rest[..second.value]).None? {
          return;
        }
        var trailer := Find(rest, TRAILER, second.value + 1);
        if trailer.None? {
          return;
        }
        var last := Find(rest, [SOH], trailer.value + 3);
        if last.None? {
          return;
        }
        var raw := rest[..last.value + 1];
        rest := rest[last.value + 1..];
        var msg := FIXMessage.FromText(Decode(raw));
        OneDelivered(frames, raw);
        inbox := inbox + [msg.fields];
        messagesReceived := messagesReceived + 1;
        frames := frames + [raw];
      }
      FoundIff(rest, [SOH]);
      DrainStep(rest);
      assert frames + [] == frames;
    }

    /** The read loop over the results of successive reads. */
    method ReadLoop(chunks: seq<string>)
      modifies this`inbox, this`messagesReceived, this`bytesReceived, this`running, this`state
      ensures inbox == old(inbox) + Delivered(ReadAll("", chunks).frames)
      ensures messagesReceived == old(messagesReceived) + |ReadAll("", chunks).frames|
      ensures (forall k :: 0 <= k < |chunks| ==> chunks[k] != "") ==>
                bytesReceived == old(bytesReceived) + |Concat(chunks)|
      ensures !running && state == Disconnected
    {
      hide Drain, ParseBytes;
      var buffer := "";
      var i := 0;
      ghost var frames := [];
      while i < |chunks|
        invariant 0 <= i <= |chunks|
        invariant ReadAll("", chunks).frames == frames + ReadAll(buffer, chunks[i..]).frames
        invariant inbox == old(inbox) + Delivered(frames)
        invariant messagesReceived == old(messagesReceived) + |frames|
        invariant bytesReceived + |Concat(chunks[i..])| == old(bytesReceived) + |Concat(chunks)|
      {
        if chunks[i] == "" {
          break;
        }
        assert chunks[i..][1..] == chunks[i + 1..];
        var now := Drain(buffer + chunks[i]);
        assert Delivered(frames + now.frames) == Delivered(frames) + Delivered(now.frames);
        buffer := buffer + chunks[i];
        bytesReceived := bytesReceived + |chunks[i]|;
        buffer := ProcessBuffer(buffer);
        frames := frames + now.frames;
        i := i + 1;
      }
      running := false;
      state := Disconnected;
    }
  }

  /** A search from the start succeeds exactly when there is an occurrence. */
  lemma {:induction false} FoundIff(s: string, pat: string)
    ensures Contains(s, pat) <==> Find(s, pat, 0).Some?
  {
    if Contains(s, pat) {
      var i: nat :| i <= |s| && At(s, pat, i);
      FindFirst(s, pat, 0, i);
    }
  }
}
