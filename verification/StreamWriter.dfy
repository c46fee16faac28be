/** The two capped sinks of command output: `streamWriter` forwards a prefix to
    the UI and keeps the last bytes in a ring, `limitedBuffer` keeps a prefix.
    One `char` stands for one byte. */
module StreamWriter {
  import opened Search

  function Min(a: int, b: int): int {
    if a < b then a else b
  }

  function Max(a: int, b: int): int {
    if a < b then b else a
  }

  /** The last `n` elements, or all of them. */
  function Last<T>(s: seq<T>, n: int): seq<T>
    requires n >= 0
  {
    if |s| > n then s[|s| - n..] else s
  }

  // ---- streamWriter ----

  /** `sent` is the data of all output events so far, in order. */
  datatype Written = Written(sent: string, count: int, truncated: bool, tail: string)

  const NOTHING := Written([], 0, false, [])

  function WriteStep(w: Written, p: string, limit: int, ringSize: int): Written {
    var tail := if ringSize > 0 then Last(w.tail + p, ringSize) else w.tail;
    if w.count < limit then
      var chunk := p[..Min(|p|, limit - w.count)];
      var count := w.count + |chunk|;
      Written(w.sent + chunk, count, w.truncated || count >= limit, tail)
    else w.(tail := tail)
  }

  lemma CutIsMin(p: string, k: nat)
    ensures p[..Min(|p|, k)] == if |p| > k then p[..k] else p
  {
  }

  class StreamWriter {
    const limit: int
    const ringSize: int
    var written: int
    var truncated: bool
    var tail: string
    ghost var sent: string

    constructor (limit: int, ringSize: int)
      ensures this.limit == limit && this.ringSize == ringSize && State() == NOTHING
    {
      this.limit, this.ringSize := limit, ringSize;
      written, truncated, tail, sent := 0, false, [], [];
    }

    ghost function State(): Written
      reads this
    {
      Written(sent, written, truncated, tail)
    }

    method Write(p: string) returns (n: nat)
      modifies this
      ensures n == |p|
      ensures State() == WriteStep(old(State()), p, limit, ringSize)
    {
      n := |p|;
      if ringSize > 0 {
        tail := tail + p;
        if |tail| > ringSize {
          tail := tail[|tail| - ringSize..];
        }
      }
      assert tail == if ringSize > 0 then Last(old(tail) + p, ringSize) else old(tail);
      if written < limit {
        var chunk := p;
        var remaining := limit - written;
        if |p| > remaining {
          chunk := p[..remaining];
        }
        CutIsMin(p, remaining);
        sent := sent + chunk;
        written := written + |chunk|;
        if written >= limit {
          truncated := true;
        }
      }
    }
  }

  function WriteAll(w: Written, writes: seq<string>, limit: int, ringSize: int): Written
    decreases |writes|
  {
    if writes == [] then w else WriteAll(WriteStep(w, writes[0], limit, ringSize), writes[1..], limit, ringSize)
  }

  /** What a whole stream amounts to, however it was written. */
  function Outcome(total: string, limit: int, ringSize: int): Written {
    var sent := total[..Min(|total|, Max(limit, 0))];
    Written(sent, |sent|, 0 < limit <= |total|, Last(total, Max(ringSize, 0)))
  }

  lemma LastAppend<T>(s: seq<T>, p: seq<T>, n: nat)
    ensures Last(Last(s, n) + p, n) == Last(s + p, n)
  {
  }

  lemma PrefixAppend<T>(s: seq<T>, p: seq<T>, k: nat)
    requires |s| <= k
    ensures s + p[..Min(|p|, k - |s|)] == (s + p)[..Min(|s + p|, k)]
  {
  }

  lemma WriteStepOutcome(total: string, p: string, limit: int, ringSize: int)
    ensures WriteStep(Outcome(total, limit, ringSize), p, limit, ringSize) == Outcome(total + p, limit, ringSize)
  {
    var w := Outcome(total, limit, ringSize);
    LastAppend(total, p, Max(ringSize, 0));
    if w.count < limit {
      PrefixAppend(total, p, limit);
      assert total[..|total|] == total;
    } else {
      SliceAppend(total, p, Max(limit, 0));
    }
  }

  lemma {:induction false} WriteAllOutcome(total: string, writes: seq<string>, limit: int, ringSize: int)
    ensures WriteAll(Outcome(total, limit, ringSize), writes, limit, ringSize)
         == Outcome(total + Concat(writes), limit, ringSize)
    decreases |writes|
  {
    if writes == [] {
      NilNeutral(total);
    } else {
      WriteStepOutcome(total, writes[0], limit, ringSize);
      WriteAllOutcome(total + writes[0], writes[1..], limit, ringSize);
      Associative(total, writes[0], Concat(writes[1..]));
    }
  }

  /** Any sequence of writes forwards exactly the first min(total, limit) bytes,
      keeps exactly the last min(total, ringSize) bytes even past the limit, and
      sets `truncated` exactly when the total reaches a positive limit. */
  lemma StreamWriterTheorem(writes: seq<string>, limit: int, ringSize: int)
    ensures var total := Concat(writes);
      WriteAll(NOTHING, writes, limit, ringSize) == Outcome(total, limit, ringSize)
  {
    assert Outcome([], limit, ringSize) == NOTHING;
    NilNeutral(Concat(writes));
    WriteAllOutcome([], writes, limit, ringSize);
  }

  /** The three results in plain terms. */
  lemma OutcomeInWords(total: string, limit: int, ringSize: int)
    ensures var w := Outcome(total, limit, ringSize);
      && w.sent == (if limit <= 0 then [] else if |total| <= limit then total else total[..limit])
      && w.tail == (if ringSize <= 0 then [] else if |total| <= ringSize then total else total[|total| - ringSize..])
      && (w.truncated <==> 0 < limit <= |total|)
  {
    assert total[..|total|] == total;
    assert total[..0] == [] && total[|total|..] == [];
  }

  // ---- limitedBuffer ----

  datatype Kept = Kept(buffer: string, truncated: bool)

  function KeepStep(b: Kept, p: string, limit: int): Kept {
    var remaining := limit - |b.buffer|;
    if remaining > 0 then Kept(b.buffer + p[..Min(|p|, remaining)], b.truncated || |p| > remaining)
    else b.(truncated := b.truncated || |p| > 0)
  }

  class LimitedBuffer {
    const limit: int
    var buffer: string
    var truncated: bool

    constructor (limit: int)
      ensures this.limit == limit && buffer == [] && !truncated
    {
      this.limit, buffer, truncated := limit, [], false;
    }

    ghost function State(): Kept
      reads this
    {
      Kept(buffer, truncated)
    }

    method Write(p: string) returns (n: nat)
      modifies this
      ensures n == |p|
      ensures State() == KeepStep(old(State()), p, limit)
    {
      n := |p|;
      var remaining := limit - |buffer|;
      if remaining > 0 {
        var kept := p;
        if |p| > remaining {
          kept := p[..remaining];
          truncated := true;
        }
        assert kept == p[..Min(|p|, remaining)];
        buffer := buffer + kept;
      } else if n > 0 {
        truncated := true;
      }
    }
  }

  function KeepAll(b: Kept, writes: seq<string>, limit: int): Kept
    decreases |writes|
  {
    if writes == [] then b else KeepAll(KeepStep(b, writes[0], limit), writes[1..], limit)
  }

  function KeptOutcome(total: string, limit: int): Kept {
    Kept(total[..Min(|total|, Max(limit, 0))], |total| > Max(limit, 0))
  }

  lemma KeepStepOutcome(total: string, p: string, limit: int)
    ensures KeepStep(KeptOutcome(total, limit), p, limit) == KeptOutcome(total + p, limit)
  {
    if |total| <= limit {
      PrefixAppend(total, p, limit);
      assert total[..|total|] == total;
      assert p[..0] == [];
    } else {
      SliceAppend(total, p, Max(limit, 0));
    }
  }

  lemma {:induction false} KeepAllOutcome(total: string, writes: seq<string>, limit: int)
    ensures KeepAll(KeptOutcome(total, limit), writes, limit) == KeptOutcome(total + Concat(writes), limit)
    decreases |writes|
  {
    if writes == [] {
      NilNeutral(total);
    } else {
      KeepStepOutcome(total, writes[0], limit);
      KeepAllOutcome(total + writes[0], writes[1..], limit);
      Associative(total, writes[0], Concat(writes[1..]));
    }
  }

  /** Fed the same bytes under the same limit, however split, the two sinks hold
      the same prefix; under a positive limit their `truncated` flags differ
      exactly when the output ends right at the limit. */
  lemma SinksCompared(writes: seq<string>, others: seq<string>, limit: int, ringSize: int)
    requires Concat(writes) == Concat(others)
    ensures var total := Concat(writes);
      var w, b := WriteAll(NOTHING, writes, limit, ringSize), KeepAll(Kept("", false), others, limit);
      && b == KeptOutcome(total, limit)
      && w.sent == b.buffer
      && (b.truncated <==> total != [] && |total| > limit)
      && (limit > 0 ==> (w.truncated != b.truncated <==> |total| == limit))
      && (limit <= 0 ==> !w.truncated && (b.truncated <==> total != []))
  {
    StreamWriterTheorem(writes, limit, ringSize);
    NilNeutral(Concat(others));
    assert KeptOutcome("", limit) == Kept("", false);
    KeepAllOutcome("", others, limit);
  }
}
