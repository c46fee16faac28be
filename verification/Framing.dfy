/** The framed transport of the plugin SDK: a kind byte, a 32-bit big-endian
    length and a payload; binary payloads carry a channel name of their own. */
module Framing {
  import opened Bytes
  import opened Search

  const MAX_JSON: nat := 8 * 1024 * 1024
  const MAX_BINARY: nat := 64 * 1024 * 1024
  const HEADER: nat := 5
  const NEWLINE: byte := 0x0A
  const KIND_JSON: byte := 0
  const KIND_BINARY: byte := 1

  // ---- Big-endian integers ----

  function PutUint16(n: nat): (b: seq<byte>)
    requires n < 0x1_0000
    ensures |b| == 2
  {
    [(n / 0x100) as byte, (n % 0x100) as byte]
  }

  function Uint16(b: seq<byte>): nat
    requires |b| == 2
  {
    b[0] as nat * 0x100 + b[1] as nat
  }

  function PutUint32(n: nat): (b: seq<byte>)
    requires n < 0x1_0000_0000
    ensures |b| == 4
  {
    PutUint16(n / 0x1_0000) + PutUint16(n % 0x1_0000)
  }

  function Uint32(b: seq<byte>): nat
    requires |b| == 4
  {
    Uint16(b[..2]) * 0x1_0000 + Uint16(b[2..])
  }

  lemma Uint16RoundTrip(n: nat)
    requires n < 0x1_0000
    ensures Uint16(PutUint16(n)) == n
  {
  }

  lemma Uint32RoundTrip(n: nat)
    requires n < 0x1_0000_0000
    ensures Uint32(PutUint32(n)) == n
  {
    Uint16RoundTrip(n / 0x1_0000);
    Uint16RoundTrip(n % 0x1_0000);
    var b := PutUint32(n);
    assert b[..2] == PutUint16(n / 0x1_0000) && b[2..] == PutUint16(n % 0x1_0000);
  }

  // ---- Messages and frames ----

  predicate IsAlnum(c: byte) {
    0x61 <= c <= 0x7A || 0x41 <= c <= 0x5A || 0x30 <= c <= 0x39
  }

  predicate ValidProtocolName(name: seq<byte>) {
    && 0 < |name| <= 256
    && forall i :: 0 <= i < |name| ==> IsAlnum(name[i]) || (i > 0 && name[i] in {0x2E, 0x5F, 0x3A, 0x2F, 0x2D})
  }

  /** What a frame delivers; `Refused` is a binary payload without a valid channel. */
  datatype Message =
    | Json(payload: seq<byte>)
    | Binary(channel: seq<byte>, data: seq<byte>)
    | Refused(payload: seq<byte>)

  function EncodeFrame(kind: byte, payload: seq<byte>): seq<byte>
    requires |payload| < 0x1_0000_0000
  {
    [kind] + PutUint32(|payload|) + payload
  }

  function BinaryPayload(channel: seq<byte>, data: seq<byte>): seq<byte>
    requires |channel| < 0x1_0000
  {
    PutUint16(|channel|) + channel + data
  }

  /** What the emitter's checks let through. */
  predicate Accepted(m: Message) {
    match m
    case Json(payload) => |payload| <= MAX_JSON
    case Binary(channel, data) => ValidProtocolName(channel) && |data| <= MAX_BINARY
    case Refused(_) => false
  }

  function Encode(m: Message): seq<byte>
    requires Accepted(m)
  {
    match m
    case Json(payload) => EncodeFrame(KIND_JSON, payload)
    case Binary(channel, data) => EncodeFrame(KIND_BINARY, BinaryPayload(channel, data))
  }

  ghost predicate AllAccepted(ms: seq<Message>) {
    forall i :: 0 <= i < |ms| ==> Accepted(ms[i])
  }

  function EncodeAll(ms: seq<Message>): seq<byte>
    requires AllAccepted(ms)
  {
    if ms == [] then [] else Encode(ms[0]) + EncodeAll(ms[1..])
  }

  // ---- The emitter ----

  /** Four bytes, the highest first. */
  function BigEndian32(a: byte, b: byte, c: byte, d: byte): nat {
    a as nat * 0x100_0000 + b as nat * 0x1_0000 + c as nat * 0x100 + d as nat
  }

  lemma Uint32Bytes(b: seq<byte>)
    requires |b| == 4
    ensures Uint32(b) == BigEndian32(b[0], b[1], b[2], b[3])
  {
  }

  lemma FrameBytes(kind: byte, payload: seq<byte>)
    requires |payload| < 0x1_0000_0000
    ensures var o := EncodeFrame(kind, payload);
      && |o| == 5 + |payload| && o[0] == kind && o[5..] == payload
      && BigEndian32(o[1], o[2], o[3], o[4]) == |payload|
  {
    Uint32RoundTrip(|payload|);
    Uint32Bytes(PutUint32(|payload|));
  }

  class Emitter {
    const framed: bool
    var output: seq<byte>

    constructor (framed: bool)
      ensures this.framed == framed && output == []
    {
      this.framed, output := framed, [];
    }

    method WriteFrame(kind: byte, payload: seq<byte>) returns (ok: bool)
      modifies this
      ensures ok <==> |payload| < 0x1_0000_0000
      ensures output == old(output) + if ok then EncodeFrame(kind, payload) else []
      ensures ok ==>
        var o := output[|old(output)|..];
        && |o| == 5 + |payload| && o[0] == kind && o[5..] == payload
        && BigEndian32(o[1], o[2], o[3], o[4]) == |payload|
    {
      NilNeutral(output);
      if |payload| > 0xFFFF_FFFF {
        return false;
      }
      FrameBytes(kind, payload);
      JoinDrop(output, EncodeFrame(kind, payload));
      var header := [kind] + PutUint32(|payload|);
      Associative(output, header, payload);
      output := output + header;
      output := output + payload;
      ok := true;
    }

    /** Without framing, a message is a line. */
    method WriteJson(payload: seq<byte>) returns (ok: bool)
      modifies this
      ensures ok <==> Accepted(Json(payload))
      ensures output == old(output) + if !ok then [] else if framed then Encode(Json(payload)) else payload + [0x0A]
    {
      NilNeutral(output);
      if |payload| > MAX_JSON {
        return false;
      }
      if framed {
        ok := WriteFrame(KIND_JSON, payload);
      } else {
        output := output + (payload + [NEWLINE]);
        ok := true;
      }
    }

    method WriteBinary(channel: seq<byte>, data: seq<byte>) returns (ok: bool)
      modifies this
      ensures ok <==> framed && Accepted(Binary(channel, data))
      ensures output == old(output) + if ok then Encode(Binary(channel, data)) else []
    {
      NilNeutral(output);
      if !framed || !ValidProtocolName(channel) || |channel| > 65535 || |data| > MAX_BINARY {
        return false;
      }
      var payload := new byte[2 + |channel| + |data|];
      var length := PutUint16(|channel|);
      forall i | 0 <= i < 2 {
        payload[i] := length[i];
      }
      forall i | 0 <= i < |channel| {
        payload[2 + i] := channel[i];
      }
      forall i | 0 <= i < |data| {
        payload[2 + |channel| + i] := data[i];
      }
      assert payload[..] == BinaryPayload(channel, data);
      ok := WriteFrame(KIND_BINARY, payload[..]);
    }
  }

  // ---- The reader ----

  datatype End = Clean | UnknownKind | TooLarge | CutOff

  datatype Served = Served(messages: seq<Message>, end: End)

  function Dispatch(kind: byte, payload: seq<byte>): Message {
    if kind == KIND_JSON then Json(payload)
    else if |payload| < 2 then Refused(payload)
    else
      var n := Uint16(payload[..2]);
      if n == 0 || |payload| < 2 + n || !ValidProtocolName(payload[2..2 + n]) then Refused(payload)
      else Binary(payload[2..2 + n], payload[2 + n..])
  }

  function Maximum(kind: byte): nat {
    if kind == KIND_BINARY then MAX_BINARY + 2 + 256 else MAX_JSON
  }

  /** The next frame of an input, or why there is none. */
  datatype Next = Frame(message: Message, rest: seq<byte>) | Stop(end: End)

  function NextFrame(input: seq<byte>): (n: Next)
    ensures n.Frame? ==> |n.rest| < |input|
  {
    if |input| < HEADER then Stop(Clean)
    else
      var kind, length := input[0], Uint32(input[1..HEADER]);
      if kind != KIND_JSON && kind != KIND_BINARY then Stop(UnknownKind)
      else if length > Maximum(kind) then Stop(TooLarge)
      else if |input| < HEADER + length then Stop(CutOff)
      else Frame(Dispatch(kind, input[HEADER..HEADER + length]), input[HEADER + length..])
  }

  function Serve(input: seq<byte>): Served
    decreases |input|
  {
    match NextFrame(input)
    case Stop(end) => Served([], end)
    case Frame(message, rest) =>
      var later := Serve(rest);
      Served([message] + later.messages, later.end)
  }

  class Pipe {
    var rest: seq<byte>

    constructor (rest: seq<byte>)
      ensures this.rest == rest
    {
      this.rest := rest;
    }

    /** `io.ReadFull`: all n bytes, or what was left. */
    method ReadFull(n: nat) returns (data: seq<byte>, ok: bool)
      modifies this
      ensures old(rest) == data + rest
      ensures ok <==> n <= |old(rest)|
      ensures ok ==> |data| == n && data == old(rest)[..n] && rest == old(rest)[n..]
    {
      ok := n <= |rest|;
      var k := if ok then n else |rest|;
      data, rest := rest[..k], rest[k..];
    }
  }

  method ServeFramed(input: Pipe) returns (served: Served)
    modifies input
    ensures served == Serve(old(input.rest))
  {
    var messages: seq<Message> := [];
    ghost var all := Serve(input.rest);
    NilNeutral(all.messages);
    while true
      invariant all == Served(messages + Serve(input.rest).messages, Serve(input.rest).end)
      decreases |input.rest|
    {
      NilNeutral(messages);
      ghost var before := input.rest;
      var header, got := input.ReadFull(HEADER);
      if !got {
        return Served(messages, Clean);
      }
      var kind, length := header[0], Uint32(header[1..]);
      assert header[1..] == before[1..HEADER];
      if kind != KIND_JSON && kind != KIND_BINARY {
        return Served(messages, UnknownKind);
      }
      if length > Maximum(kind) {
        return Served(messages, TooLarge);
      }
      var payload, whole := input.ReadFull(length);
      if !whole {
        return Served(messages, CutOff);
      }
      assert payload == before[HEADER..HEADER + length] && input.rest == before[HEADER + length..];
      Associative(messages, [Dispatch(kind, payload)], Serve(input.rest).messages);
      messages := messages + [Dispatch(kind, payload)];
    }
  }

  // ---- Round trip ----

  lemma DispatchBinary(channel: seq<byte>, data: seq<byte>)
    requires ValidProtocolName(channel)
    ensures Dispatch(KIND_BINARY, BinaryPayload(channel, data)) == Binary(channel, data)
  {
    var n := |channel|;
    var payload := BinaryPayload(channel, data);
    assert payload[..2] == PutUint16(n);
    Uint16RoundTrip(n);
    assert payload[2..2 + n] == channel && payload[2 + n..] == data;
  }

  /** Every frame the emitter lets through is within the reader's size limit
      and is read back as the same message, whatever follows it. */
  lemma NextIsEncoded(m: Message, rest: seq<byte>)
    requires Accepted(m)
    ensures NextFrame(Encode(m) + rest) == Frame(m, rest)
  {
    var kind := if m.Json? then KIND_JSON else KIND_BINARY;
    var payload := if m.Json? then m.payload else BinaryPayload(m.channel, m.data);
    var input := EncodeFrame(kind, payload) + rest;
    Uint32RoundTrip(|payload|);
    assert input[1..HEADER] == PutUint32(|payload|);
    assert input[HEADER..HEADER + |payload|] == payload;
    assert input[HEADER + |payload|..] == rest;
    if m.Binary? {
      DispatchBinary(m.channel, m.data);
    }
  }

  /** Reading what the emitter wrote gives back exactly the messages, in order. */
  lemma {:induction false} RoundTrip(ms: seq<Message>)
    requires AllAccepted(ms)
    ensures Serve(EncodeAll(ms)) == Served(ms, Clean)
    decreases |ms|
  {
    if ms != [] {
      NextIsEncoded(ms[0], EncodeAll(ms[1..]));
      RoundTrip(ms[1..]);
    }
  }

  // ---- The bytes on the wire ----

  lemma ChannelBytes(channel: seq<byte>, data: seq<byte>)
    requires |channel| < 0x1_0000
    ensures var p := BinaryPayload(channel, data);
      && |p| == 2 + |channel| + |data|
      && p[0] as nat * 0x100 + p[1] as nat == |channel|
      && p[2..2 + |channel|] == channel && p[2 + |channel|..] == data
  {
    Uint16RoundTrip(|channel|);
  }

  /** The bytes of every frame: 0 for JSON and 1 for binary, the length of what follows the
      header with the highest byte first, and the payload; in a binary payload the length
      of the channel's name, again with the high byte first, the name and the data. */
  lemma WireFormat(m: Message)
    requires Accepted(m)
    ensures var o := Encode(m);
      && |o| >= 5 && |o| == 5 + BigEndian32(o[1], o[2], o[3], o[4])
      && (m.Json? ==> o[0] == 0 && o[5..] == m.payload)
      && (m.Binary? ==>
            && o[0] == 1 && |o| == 7 + |m.channel| + |m.data|
            && o[5] as nat * 0x100 + o[6] as nat == |m.channel|
            && o[7..7 + |m.channel|] == m.channel && o[7 + |m.channel|..] == m.data)
  {
    if m.Json? {
      FrameBytes(0, m.payload);
    } else {
      var p := BinaryPayload(m.channel, m.data);
      ChannelBytes(m.channel, m.data);
      FrameBytes(1, p);
      ShiftedSlices(Encode(m), p, 2 + |m.channel|);
    }
  }

  lemma ShiftedSlices(o: seq<byte>, p: seq<byte>, k: nat)
    requires |o| >= 5 && p == o[5..] && 2 <= k <= |p|
    ensures o[5] == p[0] && o[6] == p[1] && o[7..5 + k] == p[2..k] && o[5 + k..] == p[k..]
  {
    assert forall i :: 0 <= i < |p| ==> p[i] == o[5 + i];
  }

  /** What the emitter refuses: payloads above 8 and 64 MiB, and bad channel names. */
  lemma AcceptedInWords(m: Message)
    ensures m.Json? ==> (Accepted(m) <==> |m.payload| <= 8388608)
    ensures m.Binary? ==> (Accepted(m) <==> ValidProtocolName(m.channel) && |m.data| <= 67108864)
  {
  }

  predicate LetterOrDigit(c: char) {
    'a' <= c <= 'z' || 'A' <= c <= 'Z' || '0' <= c <= '9'
  }

  /** A name is 1 to 256 letters, digits and `._:/-`, and starts with a letter or digit. */
  lemma NameInWords(name: seq<byte>)
    ensures ValidProtocolName(name) <==>
      && 1 <= |name| <= 256 && LetterOrDigit(name[0] as char)
      && forall i :: 0 <= i < |name| ==> LetterOrDigit(name[i] as char) || name[i] as char in "._:/-"
  {
    forall i | 0 <= i < |name|
      ensures name[i] in {0x2E, 0x5F, 0x3A, 0x2F, 0x2D} <==> name[i] as char in "._:/-"
    {
      Punctuation(name[i]);
    }
  }

  lemma Punctuation(c: byte)
    ensures c in {0x2E, 0x5F, 0x3A, 0x2F, 0x2D} <==> c as char in "._:/-"
  {
    var s := "._:/-";
    assert s[0] == '.' && s[1] == '_' && s[2] == ':' && s[3] == '/' && s[4] == '-';
  }

  /** The length a header announces. */
  function Announced(input: seq<byte>): nat
    requires |input| >= 5
  {
    BigEndian32(input[1], input[2], input[3], input[4])
  }

  /** 8 MiB for JSON, and for binary 64 MiB and the longest name with its length. */
  function Allowed(kind: byte): nat {
    if kind == 0 then 8388608 else 67109122
  }

  /** A frame is read from an input exactly when it starts with 0 or 1, announces no more
      than its kind allows, and holds all it announces; the rest is left. */
  lemma FrameIff(input: seq<byte>)
    ensures NextFrame(input).Frame? <==>
      |input| >= 5 && input[0] <= 1 && Announced(input) <= Allowed(input[0]) && Announced(input) <= |input| - 5
    ensures NextFrame(input).Frame? ==> NextFrame(input).rest == input[5 + Announced(input)..]
  {
    if |input| >= 5 {
      Uint32Bytes(input[1..5]);
    }
  }

  /** Why reading ends: nothing or part of a header is left, the first byte is no kind, the
      announced length is beyond what the kind allows, or the payload is not all there. */
  lemma StopIff(input: seq<byte>)
    ensures var n := NextFrame(input);
      && (n == Stop(Clean) <==> |input| < 5)
      && (n == Stop(UnknownKind) <==> |input| >= 5 && input[0] > 1)
      && (n == Stop(TooLarge) <==> |input| >= 5 && input[0] <= 1 && Announced(input) > Allowed(input[0]))
      && (n == Stop(CutOff) <==>
            |input| >= 5 && input[0] <= 1 && |input| - 5 < Announced(input) <= Allowed(input[0]))
  {
    if |input| >= 5 {
      Uint32Bytes(input[1..5]);
    }
  }

  /** A binary payload delivers a channel and data exactly when it is one that they make. */
  lemma DispatchIff(payload: seq<byte>, channel: seq<byte>, data: seq<byte>)
    ensures Dispatch(1, payload) == Binary(channel, data) <==>
      ValidProtocolName(channel) && payload == BinaryPayload(channel, data)
    ensures Dispatch(1, payload).Binary? || Dispatch(1, payload) == Refused(payload)
    ensures Dispatch(0, payload) == Json(payload)
  {
    if ValidProtocolName(channel) && payload == BinaryPayload(channel, data) {
      DispatchBinary(channel, data);
    }
    if Dispatch(1, payload) == Binary(channel, data) {
      var n := Uint16(payload[..2]);
      assert PutUint16(n) == payload[..2];
      assert payload == payload[..2] + payload[2..2 + n] + payload[2 + n..];
    }
  }

  // ---- Prefixes ----

  lemma NextOfPrefix(p: seq<byte>, s: seq<byte>)
    requires p <= s
    ensures var a, b := NextFrame(p), NextFrame(s);
      if a.Frame? then b.Frame? && a.message == b.message && a.rest <= b.rest
      else a.end.Clean? || a.end.CutOff? || b == a
  {
    if |p| >= HEADER {
      assert p[1..HEADER] == s[1..HEADER];
      var length := Uint32(p[1..HEADER]);
      if |p| >= HEADER + length {
        assert p[HEADER..HEADER + length] == s[HEADER..HEADER + length];
      }
    }
  }

  /** On any input at all, a byte prefix delivers a prefix of the messages. */
  lemma {:induction false} ServeMonotone(p: seq<byte>, s: seq<byte>)
    requires p <= s
    ensures Serve(p).messages <= Serve(s).messages
    ensures Serve(p).end.UnknownKind? || Serve(p).end.TooLarge? ==> Serve(s) == Serve(p)
    decreases |p|
  {
    NextOfPrefix(p, s);
    if NextFrame(p).Frame? {
      ServeMonotone(NextFrame(p).rest, NextFrame(s).rest);
    }
  }

  /** However early the emitter's stream breaks off, the reader has delivered a
      prefix of the messages and has seen no protocol error. */
  lemma PrefixOfStream(ms: seq<Message>, p: seq<byte>)
    requires AllAccepted(ms) && p <= EncodeAll(ms)
    ensures Serve(p).messages <= ms && (Serve(p).end.Clean? || Serve(p).end.CutOff?)
  {
    RoundTrip(ms);
    ServeMonotone(p, EncodeAll(ms));
  }

  // ---- Concurrent emitters ----

  /** One handler inside `writeFrame`; it holds the mutex from Locked on. */
  datatype Phase = Waiting(m: Message) | Locked(m: Message) | HeaderOut(m: Message) | FrameOut(m: Message)

  /** `written` is the ghost order in which whole frames went out. */
  datatype Wire = Wire(owner: set<nat>, threads: map<nat, Phase>, output: seq<byte>, written: seq<Message>)

  datatype Step = Enter(t: nat, m: Message) | Lock(t: nat) | PutHeader(t: nat) | PutPayload(t: nat) | Unlock(t: nat)

  function HeaderOf(m: Message): seq<byte>
    requires Accepted(m)
  {
    Encode(m)[..HEADER]
  }

  predicate Enabled(w: Wire, a: Step) {
    match a
    case Enter(t, m) => t !in w.threads && Accepted(m)
    case Lock(t) => t in w.threads && w.threads[t].Waiting? && w.owner == {}
    case PutHeader(t) => t in w.threads && w.threads[t].Locked? && Accepted(w.threads[t].m)
    case PutPayload(t) => t in w.threads && w.threads[t].HeaderOut? && Accepted(w.threads[t].m)
    case Unlock(t) => t in w.threads && w.threads[t].FrameOut?
  }

  function Apply(w: Wire, a: Step): Wire
    requires Enabled(w, a)
  {
    match a
    case Enter(t, m) => w.(threads := w.threads[t := Waiting(m)])
    case Lock(t) => w.(owner := {t}, threads := w.threads[t := Locked(w.threads[t].m)])
    case PutHeader(t) =>
      var m := w.threads[t].m;
      w.(threads := w.threads[t := HeaderOut(m)], output := w.output + HeaderOf(m))
    case PutPayload(t) =>
      var m := w.threads[t].m;
      w.(threads := w.threads[t := FrameOut(m)], output := w.output + Encode(m)[HEADER..], written := w.written + [m])
    case Unlock(t) => w.(owner := {}, threads := w.threads - {t})
  }

  const IDLE := Wire({}, map[], [], [])

  /** Mutual exclusion, and whole frames up to the header of the current owner. */
  ghost predicate WireInv(w: Wire) {
    && AllAccepted(w.written)
    && (forall t :: t in w.threads ==> Accepted(w.threads[t].m) && (w.threads[t].Waiting? <==> t !in w.owner))
    && (w.owner == {} || exists t :: t in w.threads && w.owner == {t})
    && (forall t :: t in w.threads && w.threads[t].HeaderOut? ==>
          w.output == EncodeAll(w.written) + HeaderOf(w.threads[t].m))
    && ((forall t :: t in w.threads ==> !w.threads[t].HeaderOut?) ==> w.output == EncodeAll(w.written))
  }

  lemma {:induction false} EncodeAllAppend(ms: seq<Message>, m: Message)
    requires AllAccepted(ms) && Accepted(m)
    ensures AllAccepted(ms + [m]) && EncodeAll(ms + [m]) == EncodeAll(ms) + Encode(m)
    decreases |ms|
  {
    if ms == [] {
      assert [m][1..] == [];
      NilNeutral(Encode(m));
      NilNeutral([m]);
    } else {
      EncodeAllAppend(ms[1..], m);
      assert (ms + [m])[1..] == ms[1..] + [m];
      Associative(Encode(ms[0]), EncodeAll(ms[1..]), Encode(m));
    }
  }

  lemma StepKeepsWire(w: Wire, a: Step)
    requires WireInv(w) && Enabled(w, a)
    ensures WireInv(Apply(w, a))
  {
    var w' := Apply(w, a);
    if a.PutPayload? {
      var m := w.threads[a.t].m;
      EncodeAllAppend(w.written, m);
      SplitAt(Encode(m), HEADER);
      Associative(EncodeAll(w.written), HeaderOf(m), Encode(m)[HEADER..]);
    }
  }

  /** The state after a list of steps, if each is enabled in turn. */
  ghost predicate Runs(w: Wire, steps: seq<Step>, w': Wire)
    decreases |steps|
  {
    if steps == [] then w == w' else Enabled(w, steps[0]) && Runs(Apply(w, steps[0]), steps[1..], w')
  }

  lemma {:induction false} RunsKeepWire(w: Wire, steps: seq<Step>, w': Wire)
    requires WireInv(w) && Runs(w, steps, w')
    ensures WireInv(w')
    decreases |steps|
  {
    if steps != [] {
      StepKeepsWire(w, steps[0]);
      RunsKeepWire(Apply(w, steps[0]), steps[1..], w');
    }
  }

  lemma HalfFrame(ms: seq<Message>, m: Message)
    requires AllAccepted(ms) && Accepted(m)
    ensures var served := Serve(EncodeAll(ms) + HeaderOf(m));
      && ms <= served.messages <= ms + [m]
      && (served.end.Clean? || served.end.CutOff?)
  {
    var out := EncodeAll(ms) + HeaderOf(m);
    EncodeAllAppend(ms, m);
    SplitAt(Encode(m), HEADER);
    Associative(EncodeAll(ms), HeaderOf(m), Encode(m)[HEADER..]);
    PrefixOfStream(ms + [m], out);
    RoundTrip(ms);
    ServeMonotone(EncodeAll(ms), out);
  }

  /** With any number of concurrent emitters, in every interleaving, the reader
      gets the messages written so far as whole frames, in one order, and at
      most the one frame still being written besides; never a protocol error. */
  lemma ConcurrentFrames(steps: seq<Step>, w: Wire)
    requires Runs(IDLE, steps, w)
    ensures var served := Serve(w.output);
      && (served.messages == w.written
          || exists t :: t in w.threads && w.threads[t].HeaderOut?
               && w.written <= served.messages <= w.written + [w.threads[t].m])
      && (served.end.Clean? || served.end.CutOff?)
  {
    RunsKeepWire(IDLE, steps, w);
    if t :| t in w.threads && w.threads[t].HeaderOut? {
      HalfFrame(w.written, w.threads[t].m);
    } else {
      RoundTrip(w.written);
    }
  }
}
