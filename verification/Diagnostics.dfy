/** The bounded diagnostics history: a sink that any thread pushes records to and a panel that reads it.

    Both keep a hundred records and drop the oldest on their own. The panel nevertheless shows exactly the
    last hundred of everything ever pushed before its latest read.
 */
module Diagnostics {
  import opened Outcomes

  const CAPACITY := 100
  const MAX_DIAGNOSTICS := 100

  /** The last `n` records, or all of them when there are fewer. */
  function Last<T>(n: nat, records: seq<T>): seq<T> {
    if |records| <= n then records else records[|records| - n..]
  }

  /** What happens to the history, whatever threads it happens on. A panel read empties the sink and then
      extends and trims what the panel shows; other threads may push `during` in between. */
  datatype Event<T> = Push(record: T) | Read(during: seq<T>)

  datatype State<T> = State(sink: seq<T>, shown: seq<T>)

  function SinkAfter<T>(sink: seq<T>, record: T): seq<T> {
    (if |sink| == CAPACITY then sink[1..] else sink) + [record]
  }

  function SinkAfterAll<T>(sink: seq<T>, records: seq<T>): seq<T> {
    if records == [] then sink
    else SinkAfter(SinkAfterAll(sink, records[..|records| - 1]), records[|records| - 1])
  }

  function ShownAfter<T>(shown: seq<T>, taken: seq<T>): seq<T> {
    var extended := shown + taken;
    if |extended| > MAX_DIAGNOSTICS then extended[|extended| - MAX_DIAGNOSTICS..] else extended
  }

  function Next<T>(state: State<T>, event: Event<T>): State<T> {
    match event
    case Push(record) => state.(sink := SinkAfter(state.sink, record))
    case Read(during) => State(SinkAfterAll([], during), ShownAfter(state.shown, state.sink))
  }

  function After<T>(events: seq<Event<T>>): State<T> {
    if events == [] then State([], []) else Next(After(events[..|events| - 1]), events[|events| - 1])
  }

  function PushedIn<T>(event: Event<T>): seq<T> {
    match event
    case Push(record) => [record]
    case Read(during) => during
  }

  /** Every record ever pushed, oldest first. */
  function Pushed<T>(events: seq<Event<T>>): seq<T> {
    if events == [] then []
    else Pushed(events[..|events| - 1]) + PushedIn(events[|events| - 1])
  }

  /** Every record pushed before the latest read looked. */
  function PushedBeforeRead<T>(events: seq<Event<T>>): seq<T> {
    if events == [] then []
    else if events[|events| - 1].Read? then Pushed(events[..|events| - 1])
    else PushedBeforeRead(events[..|events| - 1])
  }

  /** Dropping the oldest in two places independently loses nothing that dropping them in one would keep. */
  lemma ReadKeepsTheLast<T>(before: seq<T>, since: seq<T>)
    ensures ShownAfter(Last(MAX_DIAGNOSTICS, before), Last(CAPACITY, since)) == Last(MAX_DIAGNOSTICS, before + since)
  {
    var a, b := Last(MAX_DIAGNOSTICS, before), Last(CAPACITY, since);
    if |since| >= CAPACITY {
      assert ShownAfter(a, b) == b == Last(MAX_DIAGNOSTICS, before + since);
    } else {
      assert ShownAfter(a, since) == Last(MAX_DIAGNOSTICS, before + since);
    }
  }

  lemma PushKeepsTheLast<T>(since: seq<T>, record: T)
    ensures SinkAfter(Last(CAPACITY, since), record) == Last(CAPACITY, since + [record])
  {
  }

  lemma {:induction false} PushesKeepTheLast<T>(since: seq<T>, records: seq<T>)
    ensures SinkAfterAll(Last(CAPACITY, since), records) == Last(CAPACITY, since + records)
  {
    if records == [] {
      assert since + records == since;
    } else {
      var front, last := records[..|records| - 1], records[|records| - 1];
      PushesKeepTheLast(since, front);
      PushKeepsTheLast(since + front, last);
      assert (since + front) + [last] == since + records;
    }
  }

  /** In every interleaving of pushes and reads, the panel shows exactly the last hundred of all records
      pushed before its latest read, in order, and the sink holds the last hundred of those pushed since. */
  lemma {:induction false} ShowsTheLastHundred<T>(events: seq<Event<T>>) returns (since: seq<T>)
    ensures Pushed(events) == PushedBeforeRead(events) + since
    ensures After(events).shown == Last(MAX_DIAGNOSTICS, PushedBeforeRead(events))
    ensures After(events).sink == Last(CAPACITY, since)
    ensures events != [] && events[|events| - 1].Read? ==> since == events[|events| - 1].during
  {
    since := [];
    if events != [] {
      var front := events[..|events| - 1];
      var before := PushedBeforeRead(front);
      var earlier := ShowsTheLastHundred(front);
      match events[|events| - 1] {
        case Push(record) =>
          since := earlier + [record];
          PushKeepsTheLast(earlier, record);
          Regroup(before, earlier, [record]);
        case Read(during) =>
          since := during;
          ReadKeepsTheLast(before, earlier);
          PushesKeepTheLast([], during);
          assert [] + during == during;
      }
    }
  }

  lemma Regroup<T>(low: seq<T>, middle: seq<T>, high: seq<T>)
    ensures (low + middle) + high == low + (middle + high)
  {
  }

  /** A read that nothing is pushed during shows the last hundred of everything ever pushed. */
  lemma ReadShowsTheLastOfAll<T>(events: seq<Event<T>>)
    ensures After(events + [Read([])]).shown == Last(MAX_DIAGNOSTICS, Pushed(events))
    ensures After(events + [Read([])]).sink == []
  {
    var since := ShowsTheLastHundred(events + [Read([])]);
    assert (events + [Read([])])[..|events|] == events;
  }

  /** The sink the tracing layer pushes to. */
  class Sink<T> {
    var records: seq<T>
    /** Everything ever pushed, and how much of it had been when the sink was last emptied. */
    ghost var pushed: seq<T>
    ghost var taken: nat

    ghost predicate Valid()
      reads this
    {
      taken <= |pushed| && records == Last(CAPACITY, pushed[taken..])
    }

    constructor ()
      ensures Valid() && pushed == [] && taken == 0
    {
      records, pushed, taken := [], [], 0;
    }

    method Push(record: T)
      requires Valid()
      modifies this
      ensures Valid() && pushed == old(pushed) + [record] && taken == old(taken)
    {
      PushKeepsTheLast(pushed[taken..], record);
      assert (pushed + [record])[taken..] == pushed[taken..] + [record];
      if |records| == CAPACITY {
        records := records[1..];
      }
      records := records + [record];
      pushed := pushed + [record];
    }

    method Take() returns (taking: seq<T>)
      requires Valid()
      modifies this
      ensures Valid() && pushed == old(pushed) && taken == |pushed|
      ensures records == [] && taking == Last(CAPACITY, pushed[old(taken)..])
    {
      taking := records;
      records := [];
      taken := |pushed|;
    }
  }

  /** The panel, which is the sink's one reader. */
  class Panel<T> {
    const sink: Option<Sink<T>>
    var diagnostics: seq<T>

    ghost predicate Valid()
      reads this, if sink.Some? then {sink.value} else {}
    {
      if sink.None? then diagnostics == []
      else sink.value.Valid() && diagnostics == Last(MAX_DIAGNOSTICS, sink.value.pushed[..sink.value.taken])
    }

    constructor (sink: Option<Sink<T>>)
      requires sink.Some? ==> sink.value.Valid() && sink.value.taken == 0
      ensures Valid() && this.sink == sink
    {
      this.sink := sink;
      diagnostics := [];
    }

    method ReadRecords()
      requires Valid()
      modifies this, if sink.Some? then {sink.value} else {}
      ensures Valid()
      ensures sink.Some? ==> sink.value.pushed == old(sink.value.pushed)
      ensures diagnostics == if sink.None? then [] else Last(MAX_DIAGNOSTICS, sink.value.pushed)
    {
      if sink.None? {
        return;
      }
      ghost var before, since := sink.value.pushed[..sink.value.taken], sink.value.pushed[sink.value.taken..];
      var records := sink.value.Take();
      diagnostics := diagnostics + records;
      ReadKeepsTheLast(before, since);
      assert sink.value.pushed[..sink.value.taken] == sink.value.pushed == before + since;
      if |diagnostics| > MAX_DIAGNOSTICS {
        diagnostics := diagnostics[|diagnostics| - MAX_DIAGNOSTICS..];
      }
    }
  }
}
