/** The agent's event window: a bounded FIFO of the most recent health events
    plus two running counters (the `METRICS` dictionary of agent.py). */
module Events {
  import opened Common

  /** Largest number of events the window keeps. */
  const Capacity := 30

  /** An event as the ingestion endpoint receives it; `metric` defaults to the
      empty mapping and `state` to "ok" on the wire, so both are always there. */
  datatype LogEvent = LogEvent(
    service: string,
    timestamp: real,
    metric: map<string, real>,
    message: string,
    level: string,
    state: string)

  /** An entry of the window, as the detector reads it. The detector also
      accepts entries without a "metric" key (`metric == None`). */
  datatype Entry = Entry(
    service: string,
    timestamp: real,
    metric: Option<map<string, real>>,
    message: string,
    level: string,
    state: string)

  /** The dictionary form of an ingested event: it always carries "metric". */
  function AsEntry(e: LogEvent): (x: Entry)
    ensures x.metric == Some(e.metric)
    ensures x.level == e.level && x.state == e.state
  {
    Entry(e.service, e.timestamp, Some(e.metric), e.message, e.level, e.state)
  }

  /** ASCII lower-casing of one character. */
  function LowerChar(c: char): char
  {
    if 'A' <= c <= 'Z' then (c as int + 32) as char else c
  }

  function Lower(s: string): (r: string)
    ensures |r| == |s|
    ensures forall i :: 0 <= i < |s| ==> r[i] == LowerChar(s[i])
  {
    seq(|s|, i requires 0 <= i < |s| => LowerChar(s[i]))
  }

  /** The counter's test: the level is compared case-insensitively. */
  predicate CountsAsError(e: LogEvent)
    ensures CountsAsError(e) <==>
              || e.state == "crashed"
              || (|e.level| == 5 && forall i :: 0 <= i < 5 ==> LowerChar(e.level[i]) == "error"[i])
  {
    Lower(e.level) == "error" || e.state == "crashed"
  }

  /** The window after appending `x` and, if it then holds more than
      `Capacity` entries, dropping the oldest one. */
  function Slide(w: seq<Entry>, x: Entry): (r: seq<Entry>)
    ensures |r| == if |w| < Capacity then |w| + 1 else |w|
    ensures r == (w + [x])[|w| + 1 - |r|..]
    ensures |w| <= Capacity ==> |r| <= Capacity
  {
    var appended := w + [x];
    if |appended| > Capacity then appended[1..] else appended
  }

  /** The window after ingesting the entries `xs` one by one, in order. */
  function Replay(w: seq<Entry>, xs: seq<Entry>): seq<Entry>
  {
    if xs == [] then w else Slide(Replay(w, xs[..|xs| - 1]), xs[|xs| - 1])
  }

  /** Starting from a window within capacity, any run of ingestions leaves
      exactly the last `Capacity` entries of everything seen, oldest first. */
  lemma {:induction false} ReplayKeepsNewest(w: seq<Entry>, xs: seq<Entry>)
    requires |w| <= Capacity
    ensures var all := w + xs;
            Replay(w, xs) == all[if |all| > Capacity then |all| - Capacity else 0..]
  {
    if xs == [] {
      assert w + xs == w;
    } else {
      var n := |xs|;
      var x := xs[n - 1];
      var before := w + xs[..n - 1];
      var prev := Replay(w, xs[..n - 1]);
      ReplayKeepsNewest(w, xs[..n - 1]);
      var all := w + xs;
      assert all == before + [x];
      if |before| < Capacity {
        assert prev == before;
        calc {
          Replay(w, xs);
          Slide(prev, x);
          { assert |prev + [x]| <= Capacity; }
          before + [x];
        }
      } else {
        var k0 := |before| - Capacity;
        assert prev == before[k0..] && |prev| == Capacity;
        calc {
          Replay(w, xs);
          Slide(prev, x);
          (prev + [x])[1..];
          { assert prev + [x] == all[k0..]; }
          all[k0 + 1..];
        }
      }
    }
  }

  /** From an empty window, the window holds the last min(n, Capacity)
      ingested entries, oldest first. */
  lemma {:induction false} WindowHoldsLastEntries(xs: seq<Entry>)
    ensures Replay([], xs) == xs[if |xs| > Capacity then |xs| - Capacity else 0..]
  {
    ReplayKeepsNewest([], xs);
    assert [] + xs == xs;
  }

  class EventWindow {
    var window: seq<Entry>
    var totalCount: nat
    var errorCount: nat

    /** The window never exceeds its capacity, every entry came from an
        ingested event (so carries "metric"), and errors are a subset of all
        events counted since the last reset. */
    ghost predicate Valid()
      reads this
    {
      && |window| <= Capacity
      && (forall i :: 0 <= i < |window| ==> window[i].metric.Some?)
      && errorCount <= totalCount
    }

    constructor ()
      ensures Valid()
      ensures window == [] && totalCount == 0 && errorCount == 0
    {
      window, totalCount, errorCount := [], 0, 0;
    }

    /** Append the event, count it, count it as an error if its level is
        "error" in any letter case or its state is "crashed", then evict the
        oldest entry on overflow. Never fails. */
    method Ingest(e: LogEvent)
      modifies this
      ensures window == Slide(old(window), AsEntry(e))
      ensures totalCount == old(totalCount) + 1
      ensures errorCount == old(errorCount) + (if CountsAsError(e) then 1 else 0)
      ensures old(Valid()) ==> Valid()
    {
      window := window + [AsEntry(e)];
      totalCount := totalCount + 1;
      if CountsAsError(e) {
        errorCount := errorCount + 1;
      }
      if |window| > Capacity {
        window := window[1..];
      }
    }

    /** Reset after a completed remediation: empty window, both counters 0. */
    method Clear()
      modifies this
      ensures Valid()
      ensures window == [] && totalCount == 0 && errorCount == 0
    {
      window, totalCount, errorCount := [], 0, 0;
    }
  }
}
