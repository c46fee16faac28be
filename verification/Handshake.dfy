/** The two-stage marker handshake that opens a root SFTP server: wait for one
    marker, send the password, wait for a second marker, and hand every byte
    after it to the protocol client. */
module Handshake {
  import opened Bytes
  import opened Search

  const READ_SIZE: nat := 4096
  const TRIM_LIMIT: nat := 64 * 1024

  // ---- Readers ----

  /** The session's output. `rest` is what the remote still sends before the
      stream ends; how many bytes one read returns is up to the network. */
  class Stdout {
    var rest: seq<byte>

    constructor (rest: seq<byte>)
      ensures this.rest == rest
    {
      this.rest := rest;
    }

    method Read(size: nat) returns (data: seq<byte>, ended: bool)
      requires size > 0
      modifies this
      ensures old(rest) == data + rest && |data| <= size
      ensures ended ==> rest == []
      ensures data == [] ==> ended
    {
      if rest == [] {
        return [], true;
      }
      var n: nat :| 0 < n <= size && n <= |rest|;
      data, rest := rest[..n], rest[n..];
      ended := *;
      ended := ended && rest == [];
    }
  }

  /** `io.MultiReader` over some bytes already read and the live output; with an
      empty front it is the output itself. */
  class Input {
    var front: seq<byte>
    const stdout: Stdout

    constructor (front: seq<byte>, stdout: Stdout)
      ensures this.front == front && this.stdout == stdout
    {
      this.front, this.stdout := front, stdout;
    }

    ghost function Ahead(): seq<byte>
      reads this, stdout
    {
      front + stdout.rest
    }

    method Read(size: nat) returns (data: seq<byte>, ended: bool)
      requires size > 0
      modifies this, stdout
      ensures old(Ahead()) == data + Ahead() && |data| <= size
      ensures ended ==> Ahead() == []
      ensures data == [] ==> ended
      ensures |old(front)| <= size ==> front == []
    {
      if front != [] {
        var n := if |front| <= size then |front| else size;
        data, front := front[..n], front[n..];
        Associative(data, front, stdout.rest);
        return data, false;
      }
      data, ended := stdout.Read(size);
    }
  }

  // ---- Waiting for a marker ----

  /** Trimming to the last |needle| bytes cannot hide a marker that is still arriving. */
  lemma DetectsAcrossTrim(dropped: seq<byte>, output: seq<byte>, data: seq<byte>, needle: seq<byte>)
    requires Index(dropped + output, needle) < 0
    requires dropped == [] || |output| >= |needle|
    ensures var full := dropped + output + data;
      var i := Index(output + data, needle);
      && Index(full, needle) == (if i < 0 then -1 else |dropped| + i)
      && (i >= 0 ==> i + |needle| > |output|)
  {
    var full := dropped + output + data;
    IndexAppend(dropped + output, data, needle);
    IndexDrop(full, needle, |dropped|);
    Associative(dropped, output, data);
    SliceAppend(dropped, output + data, |dropped|);
    NilNeutral(output + data);
  }

  lemma EmptyMarker(s: seq<byte>)
    ensures Index(s, []) == 0
  {
  }

  /** `dropped + output` is everything read so far, without a marker in it. An empty
      marker is found in the first byte. */
  ghost predicate Searching(all: seq<byte>, dropped: seq<byte>, output: seq<byte>, ahead: seq<byte>,
                            needle: seq<byte>)
  {
    && all == dropped + output + ahead
    && (if needle == [] then dropped + output == [] else Index(dropped + output, needle) < 0)
    && (dropped == [] || |output| >= |needle|)
  }

  /** Everything after the first occurrence of a marker. */
  function After(all: seq<byte>, marker: seq<byte>): seq<byte>
    requires Index(all, marker) >= 0
  {
    all[Index(all, marker) + |marker|..]
  }

  /** The prefix shown in diagnostics ends where the marker starts, and `tail`
      plus what is still ahead is everything after the marker. */
  ghost predicate FoundIn(all: seq<byte>, prefix: seq<byte>, tail: seq<byte>, ahead: seq<byte>, needle: seq<byte>) {
    && var i := Index(all, needle);
    && i >= 0
    && |prefix| <= i && prefix == all[i - |prefix|..i]
    && tail + ahead == After(all, needle)
  }

  lemma ReadMore(all: seq<byte>, dropped: seq<byte>, output: seq<byte>, data: seq<byte>, ahead: seq<byte>,
                 needle: seq<byte>)
    requires Searching(all, dropped, output, data + ahead, needle)
    ensures all == dropped + (output + data) + ahead
    ensures Index(output + data, needle) < 0 ==> Searching(all, dropped, output + data, ahead, needle)
    ensures Index(output + data, needle) >= 0 ==>
      Index(dropped + (output + data), needle) == |dropped| + Index(output + data, needle)
    ensures Index(output + data, needle) >= 0 && needle != [] ==> |output| < Index(output + data, needle) + |needle|
    ensures needle == [] ==> output == []
  {
    if needle == [] {
      EmptyMarker(output + data);
      EmptyMarker(dropped + (output + data));
    } else {
      DetectsAcrossTrim(dropped, output, data, needle);
    }
    Associative(dropped + output, data, ahead);
    Associative(dropped, output, data);
  }

  /** The buffer cut down to its last `keep` bytes. */
  method KeepEnd(output: seq<byte>, keep: nat) returns (ghost cut: seq<byte>, trimmed: seq<byte>)
    requires keep <= |output|
    ensures output == cut + trimmed && |trimmed| == keep
  {
    cut, trimmed := output[..|output| - keep], output[|output| - keep..];
  }

  lemma TrimKeepsSearching(all: seq<byte>, dropped: seq<byte>, cut: seq<byte>, trimmed: seq<byte>, ahead: seq<byte>,
                           needle: seq<byte>)
    requires Searching(all, dropped, cut + trimmed, ahead, needle) && |trimmed| >= |needle|
    ensures Searching(all, dropped + cut, trimmed, ahead, needle)
  {
    Associative(dropped, cut, trimmed);
  }

  /** What one round of the loop leads to. Overrun: the buffer is over the limit but
      shorter than the marker, and the trim slices out of range. */
  datatype Round = Marker(prefix: seq<byte>, tail: seq<byte>) | More(output: seq<byte>) | Overrun

  /** What is done with a nonempty read. */
  method Examine(output: seq<byte>, size: nat, needle: seq<byte>,
                 ghost all: seq<byte>, ghost dropped: seq<byte>, ghost ahead: seq<byte>)
    returns (round: Round, ghost dropped': seq<byte>)
    requires all == dropped + output + ahead
    requires Index(output, needle) < 0 ==> Searching(all, dropped, output, ahead, needle)
    requires Index(output, needle) >= 0 ==>
      && Index(dropped + output, needle) == |dropped| + Index(output, needle)
      && (if needle == [] then |output| <= size else |output| - size < Index(output, needle) + |needle|)
    ensures round.Marker? ==>
      && FoundIn(all, round.prefix, round.tail, ahead, needle)
      && |round.tail| <= size && (needle != [] ==> |round.tail| < size)
    ensures round.More? ==> Searching(all, dropped', round.output, ahead, needle)
    ensures round.Overrun? <==> Index(output, needle) < 0 && 65536 < |output| < |needle|
  {
    dropped' := dropped;
    var index := Index(output, needle);
    if index >= 0 {
      FoundAt(all, dropped, output, ahead, needle);
      return Marker(output[..index], output[index + |needle|..]), dropped;
    }
    round := More(output);
    if |output| > TRIM_LIMIT {
      if |needle| > |output| {
        return Overrun, dropped;
      }
      ghost var cut;
      var trimmed;
      cut, trimmed := KeepEnd(output, |needle|);
      TrimKeepsSearching(all, dropped, cut, trimmed, ahead, needle);
      round, dropped' := More(trimmed), dropped + cut;
    }
  }

  /** The timer may win at any moment; the read then no longer counts. Crashed: the
      reader goroutine panics. */
  datatype Wait = Found(prefix: seq<byte>, tail: seq<byte>) | Missing | TimedOut | Crashed

  method ReadUntilOutputMarker(reader: Input, needle: seq<byte>) returns (result: Wait)
    modifies reader, reader.stdout
    ensures result.Found? ==>
      && FoundIn(old(reader.Ahead()), result.prefix, result.tail, reader.Ahead(), needle)
      && |result.tail| <= 4096 && (needle != [] ==> |result.tail| < 4096)
    ensures result.Missing? ==>
      if needle == [] then old(reader.Ahead()) == [] else Index(old(reader.Ahead()), needle) < 0
    ensures result.Crashed? ==> |needle| > 65537
    ensures !result.TimedOut?
    ensures !result.Crashed? && |old(reader.front)| <= 4096 ==> reader.front == []
  {
    ghost var all := reader.Ahead();
    var output: seq<byte> := [];
    ghost var dropped: seq<byte> := [];
    ghost var first := true;
    NilNeutral(all);
    while true
      invariant Searching(all, dropped, output, reader.Ahead(), needle)
      invariant first ==> reader.front == old(reader.front)
      invariant !first && |old(reader.front)| <= READ_SIZE ==> reader.front == []
      decreases |reader.Ahead()|
    {
      var data, ended := reader.Read(READ_SIZE);
      first := false;
      NilNeutral(output);
      NilNeutral(reader.Ahead());
      if data != [] {
        ReadMore(all, dropped, output, data, reader.Ahead(), needle);
        var round;
        round, dropped := Examine(output + data, |data|, needle, all, dropped, reader.Ahead());
        match round
        case Marker(prefix, tail) =>
          return Found(prefix, tail);
        case Overrun =>
          return Crashed;
        case More(rest) =>
          output := rest;
      }
      if ended {
        NilNeutral(dropped + output);
        return Missing;
      }
    }
  }

  lemma FoundAt(all: seq<byte>, dropped: seq<byte>, output: seq<byte>, ahead: seq<byte>, needle: seq<byte>)
    requires all == dropped + output + ahead
    requires Index(output, needle) >= 0
    requires Index(dropped + output, needle) == |dropped| + Index(output, needle)
    ensures var index := Index(output, needle);
      FoundIn(all, output[..index], output[index + |needle|..], ahead, needle)
  {
    IndexAppend(dropped + output, ahead, needle);
  }

  /** `late` tells whether the timer wins. */
  method WaitForOutputMarker(reader: Input, marker: seq<byte>, late: bool) returns (result: Wait)
    modifies reader, reader.stdout
    ensures result.Found? ==>
      && marker != [] && |result.tail| < 4096
      && FoundIn(old(reader.Ahead()), result.prefix, result.tail, reader.Ahead(), marker)
    ensures result.Found? && |old(reader.front)| <= 4096 ==> reader.front == []
    ensures result.Missing? ==> marker == [] || Index(old(reader.Ahead()), marker) < 0
    ensures result.Crashed? ==> |marker| > 65537
    ensures result.TimedOut? ==> late
    ensures late ==> !result.Found?
    ensures !late && |marker| <= 65537 ==>
      (result.Found? <==> marker != [] && Index(old(reader.Ahead()), marker) >= 0)
  {
    if marker == [] {
      return Missing;
    }
    result := ReadUntilOutputMarker(reader, marker);
    if late && !result.Crashed? {
      result := TimedOut;
    }
  }

  // ---- The handshake ----

  /** Both markers are in the output, the server's after the first auth marker. */
  predicate Completes(all: seq<byte>, auth: seq<byte>, server: seq<byte>) {
    auth != [] && server != [] && Index(all, auth) >= 0 && Index(After(all, auth), server) >= 0
  }

  /** Everything after the first server marker that follows the first auth marker. */
  function ProtocolBytes(all: seq<byte>, auth: seq<byte>, server: seq<byte>): seq<byte>
    requires Completes(all, auth, server)
  {
    After(After(all, auth), server)
  }

  /** Cutting a stream after the first occurrence of a marker. */
  lemma AfterMarker(before: seq<byte>, marker: seq<byte>, rest: seq<byte>)
    requires Index(before + marker, marker) == |before|
    ensures Index(before + marker + rest, marker) == |before| && After(before + marker + rest, marker) == rest
  {
    IndexAppend(before + marker, rest, marker);
  }

  /** Unless a marker shows up early, what the remote sends after the second marker is
      what the protocol client reads, byte for byte. */
  lemma ClientGetsPayload(banner: seq<byte>, auth: seq<byte>, prompt: seq<byte>, server: seq<byte>, payload: seq<byte>)
    requires auth != [] && server != []
    requires Index(banner + auth, auth) == |banner| && Index(prompt + server, server) == |prompt|
    ensures var all := banner + auth + (prompt + server + payload);
      Completes(all, auth, server) && ProtocolBytes(all, auth, server) == payload
  {
    AfterMarker(banner, auth, prompt + server + payload);
    AfterMarker(prompt, server, payload);
  }

  datatype Outcome = Ready | NotStarted | NotReady | Interrupted | Panicked

  function Failure(w: Wait, missing: Outcome): Outcome {
    if w.Missing? then missing else if w.Crashed? then Panicked else Interrupted
  }

  /** The timers may win either wait, and writing the password may fail. */
  method OpenRootSftp(stdout: Stdout, auth: seq<byte>, server: seq<byte>,
                      authLate: bool, writeFails: bool, serverLate: bool)
    returns (outcome: Outcome, protocol: Input)
    modifies stdout
    ensures fresh(protocol) && protocol.stdout == stdout
    ensures outcome.Ready? ==>
      && Completes(old(stdout.rest), auth, server)
      && protocol.Ahead() == ProtocolBytes(old(stdout.rest), auth, server)
    ensures outcome.NotStarted? || outcome.NotReady? ==> !Completes(old(stdout.rest), auth, server)
    ensures outcome.Panicked? ==> |auth| > 65537 || |server| > 65537
    ensures outcome.Interrupted? ==> authLate || writeFails || serverLate
    ensures !authLate && !writeFails && !serverLate && |auth| <= 65537 && |server| <= 65537 ==>
      (outcome.Ready? <==> Completes(old(stdout.rest), auth, server))
  {
    ghost var all := stdout.rest;
    protocol := new Input([], stdout);
    NilNeutral(all);
    var first := WaitForOutputMarker(protocol, auth, authLate);
    if !first.Found? {
      outcome := Failure(first, NotStarted);
      return;
    }
    if writeFails {
      return Interrupted, protocol;
    }
    NilNeutral(stdout.rest);
    protocol := new Input(first.tail, stdout);
    assert protocol.Ahead() == After(all, auth);
    var second := WaitForOutputMarker(protocol, server, serverLate);
    if !second.Found? {
      outcome := Failure(second, NotReady);
      return;
    }
    // The first tail was shorter than one read, so nothing of it is left behind.
    assert protocol.front == [];
    NilNeutral(stdout.rest);
    protocol := new Input(second.tail, stdout);
    outcome := Ready;
  }
}
