/**
 The metrics hook of a node page (frontend/src/hooks/use-node-metrics.ts): messages pushed over the socket and
 the records of overlapping polls are appended to a window of the newest 60.

 An event is one message, or the completion of one poll; polls complete in any order. A failed poll does nothing.
 */
module NodeMetrics {
  import opened Prelude
  import opened Timestamps

  const MAX_DATA_POINTS := 60

  /** The counters of a sample; an absent field is None. */
  datatype Sample = Sample(
    cpu: Option<real>, memoryUsed: Option<int>, memoryTotal: Option<int>, diskUsed: Option<int>,
    diskTotal: Option<int>, netIn: Option<int>, netOut: Option<int>)

  datatype Record = Record(recordedAt: string, sample: Sample)

  /** A pushed message; an absent text is "". */
  datatype Message = Message(kind: string, nodeId: string, recordedAt: string, timestamp: string, sample: Sample)

  datatype Metric = Metric(timestamp: string, cpu: real, memory: real, disk: real, netIn: int, netOut: int)

  function OrZero(n: Option<int>): int { if n.Some? then n.value else 0 }

  function Percent(used: Option<int>, total: Option<int>): (r: real)
    ensures total.Some? && 0 <= OrZero(used) <= total.value ==> 0.0 <= r <= 100.0
    ensures IsShare(r, used, total)
  {
    if total.Some? && total.value > 0 then
      var share := OrZero(used) as real / total.value as real;
      assert share * total.value as real == OrZero(used) as real;
      assert share * 100.0 * total.value as real == share * total.value as real * 100.0;
      share * 100.0
    else 0.0
  }

  /** What percentage the used part is of a positive total; an absent part counts as nothing. */
  ghost predicate IsShare(r: real, used: Option<int>, total: Option<int>) {
    if total.Some? && total.value > 0 then
      r * total.value as real == (if used.Some? then used.value as real * 100.0 else 0.0)
    else r == 0.0
  }

  /** The metric has the time and the numbers of the sample, and nothing where the sample has none. */
  ghost predicate Describes(m: Metric, timestamp: string, s: Sample) {
    && m.timestamp == timestamp
    && IsShare(m.memory, s.memoryUsed, s.memoryTotal) && IsShare(m.disk, s.diskUsed, s.diskTotal)
    && (if s.cpu.Some? then m.cpu == s.cpu.value else m.cpu == 0.0)
    && (if s.netIn.Some? then m.netIn == s.netIn.value else m.netIn == 0)
    && (if s.netOut.Some? then m.netOut == s.netOut.value else m.netOut == 0)
  }

  function Processed(timestamp: string, s: Sample): (m: Metric)
    ensures Describes(m, timestamp, s)
  {
    Metric(timestamp, if s.cpu.Some? then s.cpu.value else 0.0, Percent(s.memoryUsed, s.memoryTotal),
      Percent(s.diskUsed, s.diskTotal), OrZero(s.netIn), OrZero(s.netOut))
  }

  function FromRecord(r: Record): Metric {
    Processed(r.recordedAt, r.sample)
  }

  function ProcessAll(records: seq<Record>): (r: seq<Metric>)
    ensures |r| == |records|
  {
    seq(|records|, i requires 0 <= i < |records| => FromRecord(records[i]))
  }

  predicate Accepts(node: string, m: Message) {
    && m.kind in {"", "node_metrics", "metrics"}
    && m.nodeId in {"", node}
    && (m.recordedAt != "" || m.timestamp != "")
    && m.sample.cpu.Some?
  }

  function FromMessage(m: Message): Metric {
    Processed(if m.recordedAt != "" then m.recordedAt else m.timestamp, m.sample)
  }

  function After(records: seq<Record>, last: string): (r: seq<Record>)
    ensures |r| <= |records|
  {
    if records == [] then []
    else (if Less(last, records[0].recordedAt) then [records[0]] else []) + After(records[1..], last)
  }

  /** The records of a poll that are new: those after the last one polled, or on the first poll only the last. */
  function NewRecords(last: string, records: seq<Record>): seq<Record> {
    if last == "" then LastN(records, 1) else After(records, last)
  }

  /** appended is everything the window was ever given, polled the records among it that polls gave. */
  datatype State = State(
    metrics: seq<Metric>, latest: Option<Metric>, lastPoll: string, appended: seq<Metric>, polled: seq<Record>)

  const INITIAL := State([], None, "", [], [])

  datatype Event = Push(message: Message) | Poll(records: seq<Record>)

  function Append(s: State, metrics: seq<Metric>): State
    requires metrics != []
  {
    s.(metrics := LastN(s.metrics + metrics, MAX_DATA_POINTS), latest := Some(metrics[|metrics| - 1]),
       appended := s.appended + metrics)
  }

  function Step(node: string, s: State, e: Event): State {
    match e
    case Push(m) => if Accepts(node, m) then Append(s, [FromMessage(m)]) else s
    case Poll(records) =>
      var added := NewRecords(s.lastPoll, records);
      if added == [] then s
      else
        Append(s, ProcessAll(added)).(lastPoll := added[|added| - 1].recordedAt, polled := s.polled + added)
  }

  function Run(node: string, events: seq<Event>): State {
    if events == [] then INITIAL else Step(node, Run(node, events[..|events| - 1]), events[|events| - 1])
  }

  // ---------- the hook as the source has it ----------

  class Hook {
    const nodeId: string
    var metrics: seq<Metric>
    var latest: Option<Metric>
    var lastPoll: string
    ghost var appended: seq<Metric>
    ghost var polled: seq<Record>

    constructor (node: string)
      ensures nodeId == node && Abstract() == INITIAL
    {
      nodeId, metrics, latest, lastPoll := node, [], None, "";
      appended, polled := [], [];
    }

    ghost function Abstract(): State
      reads this
    {
      State(metrics, latest, lastPoll, appended, polled)
    }

    method AppendToWindow(processed: seq<Metric>)
      requires processed != []
      modifies this
      ensures Abstract() == Append(old(Abstract()), processed)
    {
      latest := Some(processed[|processed| - 1]);
      var next := metrics + processed;
      metrics := if |next| > MAX_DATA_POINTS then next[|next| - MAX_DATA_POINTS..] else next;
      appended := appended + processed;
    }

    method HandleMessage(m: Message)
      modifies this
      ensures Abstract() == Step(nodeId, old(Abstract()), Push(m))
    {
      if m.kind != "" && m.kind != "node_metrics" && m.kind != "metrics" { return; }
      if m.nodeId != "" && m.nodeId != nodeId { return; }
      var timestamp := if m.recordedAt != "" then m.recordedAt else m.timestamp;
      if timestamp == "" || m.sample.cpu.None? { return; }
      AppendToWindow([Processed(timestamp, m.sample)]);
    }

    /** pollMetrics after its await. */
    method CompletePoll(records: seq<Record>)
      modifies this
      ensures Abstract() == Step(nodeId, old(Abstract()), Poll(records))
    {
      if |records| == 0 { return; }
      var newRecords := if lastPoll != "" then After(records, lastPoll) else records[|records| - 1..];
      if |newRecords| == 0 { return; }
      lastPoll := newRecords[|newRecords| - 1].recordedAt;
      polled := polled + newRecords;
      AppendToWindow(ProcessAll(newRecords));
    }
  }

  // ---------- the window ----------

  lemma WindowOfWindow(a: seq<Metric>, b: seq<Metric>, n: nat)
    ensures LastN(LastN(a, n) + b, n) == LastN(a + b, n)
  {
  }

  ghost predicate WindowOk(s: State) {
    && s.metrics == LastN(s.appended, MAX_DATA_POINTS)
    && s.latest == (if s.appended == [] then None else Some(s.appended[|s.appended| - 1]))
  }

  lemma AppendKeepsWindow(s: State, metrics: seq<Metric>)
    requires WindowOk(s) && metrics != []
    ensures WindowOk(Append(s, metrics))
  {
    WindowOfWindow(s.appended, metrics, MAX_DATA_POINTS);
  }

  lemma StepKeepsWindow(node: string, s: State, e: Event)
    requires WindowOk(s)
    ensures WindowOk(Step(node, s, e))
  {
    if e.Push? {
      if Accepts(node, e.message) { AppendKeepsWindow(s, [FromMessage(e.message)]); }
    } else if NewRecords(s.lastPoll, e.records) != [] {
      AppendKeepsWindow(s, ProcessAll(NewRecords(s.lastPoll, e.records)));
    }
  }

  /** A message is shown exactly when it is not about something or some node else, and has a time and a CPU usage. */
  lemma MessageIsShownExactly(node: string, s: State, m: Message)
    ensures var s', time := Step(node, s, Push(m)), if m.recordedAt != "" then m.recordedAt else m.timestamp;
      if (m.kind == "" || m.kind == "node_metrics" || m.kind == "metrics")
        && (m.nodeId == "" || m.nodeId == node) && time != "" && m.sample.cpu.Some?
      then
        && s'.latest.Some? && Describes(s'.latest.value, time, m.sample)
        && s'.appended == s.appended + [s'.latest.value] && s'.lastPoll == s.lastPoll && s'.polled == s.polled
      else s' == s
  {
  }

  /** In every run the window is the last 60 of everything appended, and the latest metric is the last of it. */
  lemma {:induction false} WindowIsLastOfAll(node: string, events: seq<Event>)
    ensures WindowOk(Run(node, events))
    ensures var s := Run(node, events); |s.metrics| == if |s.appended| < 60 then |s.appended| else 60
  {
    if events == [] {
    } else {
      var before, e := events[..|events| - 1], events[|events| - 1];
      WindowIsLastOfAll(node, before);
      StepKeepsWindow(node, Run(node, before), e);
    }
  }

  // ---------- overlapping polls ----------

  /** Every record has a time and they are in strictly ascending order of its text. */
  ghost predicate Ascending(records: seq<Record>) {
    && (forall i :: 0 <= i < |records| ==> records[i].recordedAt != "")
    && forall i, j :: 0 <= i < j < |records| ==> Less(records[i].recordedAt, records[j].recordedAt)
  }

  function Max(a: nat, b: nat): nat { if a < b then b else a }

  /** Of an ascending stretch of the log, the records after log[q - 1] are those from q on. */
  lemma {:induction false} AfterIsSuffix(log: seq<Record>, a: nat, b: nat, q: nat)
    requires Ascending(log) && a <= b <= |log| && 0 < q <= |log|
    ensures After(log[a..b], log[q - 1].recordedAt) == if a < b && q < b then log[Max(a, q)..b] else []
    decreases b - a
  {
    var last := log[q - 1].recordedAt;
    if a == b {
    } else {
      AfterIsSuffix(log, a + 1, b, q);
      assert log[a..b][0] == log[a] && log[a..b][1..] == log[a + 1..b];
      LessIsTotal(last, log[a].recordedAt);
      assert Less(last, log[a].recordedAt) <==> q <= a;
    }
  }

  /** A poll answers the stretch log[from..to] of one log; a message answers none. */
  datatype Stretch = Stretch(from: nat, to: nat)

  ghost predicate Answers(log: seq<Record>, e: Event, stretch: Stretch) {
    stretch.from <= stretch.to <= |log| && (e.Poll? ==> e.records == log[stretch.from..stretch.to])
  }

  ghost predicate AllAnswer(log: seq<Record>, events: seq<Event>, stretches: seq<Stretch>) {
    |events| == |stretches| && forall k :: 0 <= k < |events| ==> Answers(log, events[k], stretches[k])
  }

  predicate Advances(e: Event, stretch: Stretch, q: nat) {
    e.Poll? && stretch.from < stretch.to && q < stretch.to
  }

  /** How far into the log the polls have got. */
  function Reached(events: seq<Event>, stretches: seq<Stretch>): nat
    requires |events| == |stretches|
  {
    if events == [] then 0 else
    var n := |events| - 1;
    var q := Reached(events[..n], stretches[..n]);
    if Advances(events[n], stretches[n], q) then stretches[n].to else q
  }

  /** Every poll that got further began no later than where the polls before it had got. */
  predicate Overlapping(events: seq<Event>, stretches: seq<Stretch>)
    requires |events| == |stretches|
  {
    events == [] ||
    var n := |events| - 1;
    var q := Reached(events[..n], stretches[..n]);
    Overlapping(events[..n], stretches[..n])
    && (Advances(events[n], stretches[n], q) && q > 0 ==> stretches[n].from <= q)
  }

  /** The polls have got to q, and what they gave is in ascending order. */
  ghost predicate Tracks(s: State, log: seq<Record>, q: nat) {
    && q <= |log| && Ascending(s.polled)
    && if q == 0 then s.lastPoll == "" && s.polled == []
       else s.lastPoll == log[q - 1].recordedAt && s.polled != [] && s.polled[|s.polled| - 1] == log[q - 1]
  }

  ghost predicate Contiguous(polled: seq<Record>, log: seq<Record>, q: nat)
    requires q <= |log|
  {
    exists p :: 0 <= p <= q && polled == log[p..q]
  }

  /** What a poll adds to the records polled so far. */
  function Added(log: seq<Record>, stretch: Stretch, q: nat): seq<Record>
    requires stretch.from < stretch.to <= |log| && q < stretch.to
  {
    if q == 0 then log[stretch.to - 1..stretch.to] else log[Max(stretch.from, q)..stretch.to]
  }

  lemma AddedEnds(log: seq<Record>, stretch: Stretch, q: nat)
    requires stretch.from < stretch.to <= |log| && q < stretch.to
    ensures var added := Added(log, stretch, q); added != [] && added[|added| - 1] == log[stretch.to - 1]
  {
  }

  lemma PollGives(node: string, s: State, records: seq<Record>)
    ensures var added := NewRecords(s.lastPoll, records);
      var s' := Step(node, s, Poll(records));
      && s'.polled == s.polled + added
      && s'.lastPoll == if added == [] then s.lastPoll else added[|added| - 1].recordedAt
  {
  }

  lemma NewOfStretch(s: State, log: seq<Record>, stretch: Stretch, q: nat)
    requires Ascending(log) && Tracks(s, log, q) && stretch.from <= stretch.to <= |log|
    ensures NewRecords(s.lastPoll, log[stretch.from..stretch.to])
      == if stretch.from < stretch.to && q < stretch.to then Added(log, stretch, q) else []
  {
    if q == 0 {
      LastOfStretch(log, stretch.from, stretch.to);
    } else {
      assert s.lastPoll != "";
      AfterIsSuffix(log, stretch.from, stretch.to, q);
    }
  }

  lemma LastOfStretch(log: seq<Record>, a: nat, b: nat)
    requires a <= b <= |log|
    ensures LastN(log[a..b], 1) == if a < b then log[b - 1..b] else []
  {
  }

  lemma PollAdds(node: string, s: State, log: seq<Record>, e: Event, stretch: Stretch, q: nat)
    requires Ascending(log) && Answers(log, e, stretch) && Tracks(s, log, q)
    ensures !Advances(e, stretch, q) ==> Step(node, s, e).polled == s.polled && Step(node, s, e).lastPoll == s.lastPoll
    ensures Advances(e, stretch, q) ==>
      && Step(node, s, e).polled == s.polled + Added(log, stretch, q)
      && Step(node, s, e).lastPoll == log[stretch.to - 1].recordedAt
  {
    if e.Poll? {
      NewOfStretch(s, log, stretch, q);
      PollGives(node, s, e.records);
      if Advances(e, stretch, q) { AddedEnds(log, stretch, q); }
    }
  }

  lemma AscendingExtends(polled: seq<Record>, log: seq<Record>, i: nat, j: nat)
    requires Ascending(polled) && Ascending(log) && i < j <= |log|
    requires polled != [] ==> Less(polled[|polled| - 1].recordedAt, log[i].recordedAt)
    ensures Ascending(polled + log[i..j])
  {
    var all := polled + log[i..j];
    forall x, y | 0 <= x < y < |all| ensures Less(all[x].recordedAt, all[y].recordedAt) {
      if x < |polled| <= y {
        var last := polled[|polled| - 1].recordedAt;
        if x < |polled| - 1 { LessTransitive(all[x].recordedAt, last, log[i].recordedAt); }
        if i < i + y - |polled| { LessTransitive(all[x].recordedAt, log[i].recordedAt, all[y].recordedAt); }
      }
    }
  }

  lemma PollKeepsTrack(node: string, s: State, log: seq<Record>, e: Event, stretch: Stretch, q: nat)
    requires Ascending(log) && Answers(log, e, stretch) && Tracks(s, log, q)
    ensures Tracks(Step(node, s, e), log, if Advances(e, stretch, q) then stretch.to else q)
  {
    PollAdds(node, s, log, e, stretch, q);
    if Advances(e, stretch, q) {
      AscendingExtends(s.polled, log, if q == 0 then stretch.to - 1 else Max(stretch.from, q), stretch.to);
      AddedEnds(log, stretch, q);
    }
  }

  lemma ContiguousExtends(polled: seq<Record>, log: seq<Record>, q: nat, m: nat, to: nat)
    requires Ascending(log) && 0 < q <= m < to <= |log| && polled != [] && polled[|polled| - 1] == log[q - 1]
    ensures Contiguous(polled + log[m..to], log, to) ==> m == q && Contiguous(polled, log, q)
    ensures m == q && Contiguous(polled, log, q) ==> Contiguous(polled + log[m..to], log, to)
  {
    var all := polled + log[m..to];
    if p :| 0 <= p <= to && all == log[p..to] {
      assert |polled| == m - p && polled == all[..m - p];
      assert polled == log[p..m];
      assert polled[|polled| - 1] == log[m - 1];
      LessIsTotal(log[m - 1].recordedAt, log[q - 1].recordedAt);
    }
    if p :| 0 <= p <= q && polled == log[p..q] && m == q {
      assert all == log[p..to];
    }
  }

  /** A poll keeps what the polls gave a contiguous stretch of the log exactly when it leaves no gap. */
  lemma PollKeepsContiguous(node: string, s: State, log: seq<Record>, e: Event, stretch: Stretch, q: nat)
    requires Ascending(log) && Answers(log, e, stretch) && Tracks(s, log, q) && Advances(e, stretch, q)
    ensures Contiguous(Step(node, s, e).polled, log, stretch.to)
      <==> Contiguous(s.polled, log, q) && (q > 0 ==> stretch.from <= q)
  {
    PollAdds(node, s, log, e, stretch, q);
    if q == 0 {
      assert s.polled == log[0..0];
      assert Step(node, s, e).polled == log[stretch.to - 1..stretch.to];
    } else {
      ContiguousExtends(s.polled, log, q, Max(stretch.from, q), stretch.to);
    }
  }

  /**
   Polls that answer stretches of one log, whatever the order in which they complete, append records in
   strictly ascending order, each newer than all that earlier polls gave; and they append a contiguous stretch
   of the log, skipping nothing, exactly when every poll that gets further reaches back to where the polls
   before it had got.
   */
  lemma {:induction false} PollsFollowLog(node: string, log: seq<Record>, events: seq<Event>, stretches: seq<Stretch>)
    requires Ascending(log) && AllAnswer(log, events, stretches)
    ensures var s, q := Run(node, events), Reached(events, stretches);
      Tracks(s, log, q) && (Contiguous(s.polled, log, q) <==> Overlapping(events, stretches))
  {
    if events == [] {
      assert log[0..0] == [];
    } else {
      var n := |events| - 1;
      var s, q := Run(node, events[..n]), Reached(events[..n], stretches[..n]);
      PollsFollowLog(node, log, events[..n], stretches[..n]);
      assert Answers(log, events[n], stretches[n]);
      PollKeepsTrack(node, s, log, events[n], stretches[n], q);
      if Advances(events[n], stretches[n], q) {
        PollKeepsContiguous(node, s, log, events[n], stretches[n], q);
      } else {
        PollAdds(node, s, log, events[n], stretches[n], q);
      }
    }
  }

  // ---------- messages and polls together ----------

  /** An accepted message pushes the one record of its stretch. */
  ghost predicate Pushes(node: string, log: seq<Record>, e: Event, stretch: Stretch) {
    e.Push? && Accepts(node, e.message) ==>
      stretch.from < |log| && FromMessage(e.message) == FromRecord(log[stretch.from])
  }

  ghost predicate AllPush(node: string, log: seq<Record>, events: seq<Event>, stretches: seq<Stretch>) {
    |events| == |stretches| && forall k :: 0 <= k < |events| ==> Pushes(node, log, events[k], stretches[k])
  }

  function FromTo(a: nat, b: nat): seq<nat>
    requires a <= b
  {
    seq(b - a, i requires 0 <= i => a + i)
  }

  /** Where in the log what an event appends is. */
  function Places(node: string, e: Event, stretch: Stretch, q: nat): seq<nat> {
    match e
    case Push(m) => if Accepts(node, m) then [stretch.from] else []
    case Poll(_) =>
      if !Advances(e, stretch, q) then []
      else FromTo(if q == 0 then stretch.to - 1 else Max(stretch.from, q), stretch.to)
  }

  function AllPlaces(node: string, events: seq<Event>, stretches: seq<Stretch>): seq<nat>
    requires |events| == |stretches|
  {
    if events == [] then [] else
    var n := |events| - 1;
    AllPlaces(node, events[..n], stretches[..n])
    + Places(node, events[n], stretches[n], Reached(events[..n], stretches[..n]))
  }

  predicate Pushed(node: string, events: seq<Event>, stretches: seq<Stretch>, p: nat)
    requires |events| == |stretches|
  {
    events != [] &&
    var n := |events| - 1;
    Pushed(node, events[..n], stretches[..n], p)
    || (events[n].Push? && Accepts(node, events[n].message) && stretches[n].from == p)
  }

  /** No message pushes a record that was appended before, and no poll adds one that was pushed before. */
  predicate NoneAgain(node: string, events: seq<Event>, stretches: seq<Stretch>)
    requires |events| == |stretches|
  {
    events == [] ||
    var n := |events| - 1;
    && NoneAgain(node, events[..n], stretches[..n])
    && forall p :: p in Places(node, events[n], stretches[n], Reached(events[..n], stretches[..n])) ==>
         if events[n].Push? then p !in AllPlaces(node, events[..n], stretches[..n])
         else !Pushed(node, events[..n], stretches[..n], p)
  }

  /** The metrics are those of the records of the log at these places. */
  ghost predicate At(log: seq<Record>, metrics: seq<Metric>, places: seq<nat>) {
    && |metrics| == |places|
    && forall k :: 0 <= k < |places| ==> places[k] < |log| && metrics[k] == FromRecord(log[places[k]])
  }

  lemma AtJoined(log: seq<Record>, a: seq<Metric>, b: seq<Metric>, p: seq<nat>, q: seq<nat>)
    requires At(log, a, p) && At(log, b, q)
    ensures At(log, a + b, p + q)
  {
  }

  lemma ProcessedStretch(log: seq<Record>, a: nat, b: nat)
    requires a <= b <= |log|
    ensures At(log, ProcessAll(log[a..b]), FromTo(a, b))
  {
  }

  lemma PollAppends(node: string, s: State, log: seq<Record>, e: Event, stretch: Stretch, q: nat)
    requires Ascending(log) && e.Poll? && Answers(log, e, stretch) && Tracks(s, log, q)
    ensures At(log, ProcessAll(NewRecords(s.lastPoll, e.records)), Places(node, e, stretch, q))
  {
    NewOfStretch(s, log, stretch, q);
    if Advances(e, stretch, q) {
      ProcessedStretch(log, if q == 0 then stretch.to - 1 else Max(stretch.from, q), stretch.to);
    }
  }

  lemma StepAppends(node: string, s: State, log: seq<Record>, e: Event, stretch: Stretch, q: nat, places: seq<nat>)
    requires Ascending(log) && Answers(log, e, stretch) && Pushes(node, log, e, stretch) && Tracks(s, log, q)
    requires At(log, s.appended, places)
    ensures At(log, Step(node, s, e).appended, places + Places(node, e, stretch, q))
  {
    match e
    case Push(m) =>
      if Accepts(node, m) { AtJoined(log, s.appended, [FromMessage(m)], places, [stretch.from]); }
    case Poll(records) =>
      PollAppends(node, s, log, e, stretch, q);
      AtJoined(log, s.appended, ProcessAll(NewRecords(s.lastPoll, records)), places, Places(node, e, stretch, q));
  }

  lemma PlacesOfEvent(node: string, e: Event, stretch: Stretch, q: nat, p: nat)
    ensures e.Push? ==> (p in Places(node, e, stretch, q) <==> Accepts(node, e.message) && stretch.from == p)
    ensures e.Poll? && p in Places(node, e, stretch, q) ==> Advances(e, stretch, q) && p < stretch.to
  {
  }

  /** What polls gave lies before where they have got, so a poll can only repeat a pushed record. */
  lemma {:induction false} PlacesKnown(node: string, events: seq<Event>, stretches: seq<Stretch>, p: nat)
    requires |events| == |stretches|
    ensures Pushed(node, events, stretches, p) ==> p in AllPlaces(node, events, stretches)
    ensures p in AllPlaces(node, events, stretches) ==>
      Pushed(node, events, stretches, p) || p < Reached(events, stretches)
  {
    if events == [] {
    } else {
      var n := |events| - 1;
      var q := Reached(events[..n], stretches[..n]);
      var more := Places(node, events[n], stretches[n], q);
      PlacesKnown(node, events[..n], stretches[..n], p);
      PlacesOfEvent(node, events[n], stretches[n], q, p);
      assert p in AllPlaces(node, events, stretches) <==> p in AllPlaces(node, events[..n], stretches[..n]) || p in more;
    }
  }

  lemma DistinctOfBoth(a: seq<nat>, b: seq<nat>)
    requires Distinct(a + b)
    ensures Distinct(a) && forall p :: p in b ==> p !in a
  {
    var all := a + b;
    forall i, j | 0 <= i < j < |a| ensures a[i] != a[j] {
      assert all[i] != all[j];
    }
    forall i, j | 0 <= i < |a| && 0 <= j < |b| ensures a[i] != b[j] {
      assert all[i] != all[|a| + j];
    }
  }

  lemma DistinctJoined(a: seq<nat>, b: seq<nat>)
    requires Distinct(a) && Distinct(b) && forall p :: p in b ==> p !in a
    ensures Distinct(a + b)
  {
    var all := a + b;
    forall i, j | 0 <= i < j < |all| ensures all[i] != all[j] {
      if j < |a| {
        assert a[i] != a[j];
      } else if i < |a| {
        assert b[j - |a|] in b && a[i] in a;
      }
    }
  }

  lemma {:induction false} PlacesDistinct(node: string, events: seq<Event>, stretches: seq<Stretch>)
    requires |events| == |stretches|
    ensures Distinct(AllPlaces(node, events, stretches)) <==> NoneAgain(node, events, stretches)
  {
    if events == [] {
    } else {
      var n := |events| - 1;
      var q := Reached(events[..n], stretches[..n]);
      var earlier, more := AllPlaces(node, events[..n], stretches[..n]), Places(node, events[n], stretches[n], q);
      PlacesDistinct(node, events[..n], stretches[..n]);
      if Distinct(earlier + more) { DistinctOfBoth(earlier, more); }
      if Distinct(earlier) && forall p :: p in more ==> p !in earlier { DistinctJoined(earlier, more); }
      forall p | p in more && !events[n].Push?
        ensures p in earlier <==> Pushed(node, events[..n], stretches[..n], p)
      {
        PlacesKnown(node, events[..n], stretches[..n], p);
      }
    }
  }

  lemma {:induction false} AppendedPlaces(node: string, log: seq<Record>, events: seq<Event>, stretches: seq<Stretch>)
    requires Ascending(log) && AllAnswer(log, events, stretches) && AllPush(node, log, events, stretches)
    ensures At(log, Run(node, events).appended, AllPlaces(node, events, stretches))
  {
    if events == [] {
    } else {
      var n := |events| - 1;
      AppendedPlaces(node, log, events[..n], stretches[..n]);
      PollsFollowLog(node, log, events[..n], stretches[..n]);
      assert Answers(log, events[n], stretches[n]) && Pushes(node, log, events[n], stretches[n]);
      StepAppends(node, Run(node, events[..n]), log, events[n], stretches[n], Reached(events[..n], stretches[..n]),
        AllPlaces(node, events[..n], stretches[..n]));
    }
  }

  ghost predicate TimesDistinct(metrics: seq<Metric>) {
    forall i, j :: 0 <= i < j < |metrics| ==> metrics[i].timestamp != metrics[j].timestamp
  }

  /**
   Messages and polls append no record twice exactly when no message pushes a record that was appended before
   it, and no poll answers a record, later than those polled before, that was pushed before it.
   */
  lemma NothingAppendedTwice(node: string, log: seq<Record>, events: seq<Event>, stretches: seq<Stretch>)
    requires Ascending(log) && AllAnswer(log, events, stretches) && AllPush(node, log, events, stretches)
    ensures TimesDistinct(Run(node, events).appended) <==> NoneAgain(node, events, stretches)
    ensures NoneAgain(node, events, stretches) ==> TimesDistinct(Run(node, events).metrics)
  {
    var appended, places := Run(node, events).appended, AllPlaces(node, events, stretches);
    AppendedPlaces(node, log, events, stretches);
    PlacesDistinct(node, events, stretches);
    WindowIsLastOfAll(node, events);
    forall i, j | 0 <= i < j < |places|
      ensures appended[i].timestamp == appended[j].timestamp <==> places[i] == places[j]
    {
      LessIsTotal(log[places[i]].recordedAt, log[places[j]].recordedAt);
    }
  }

  /** A record that is pushed and then polled is in the window twice. */
  lemma PushedThenPolled(node: string, r: Record, m: Message)
    requires Accepts(node, m) && FromMessage(m) == FromRecord(r)
    ensures Run(node, [Push(m), Poll([r])]).metrics == [FromRecord(r), FromRecord(r)]
  {
    var events := [Push(m), Poll([r])];
    assert events[..1] == [Push(m)] && events[..1][..0] == [];
    assert Run(node, events[..1]) == Step(node, INITIAL, Push(m));
  }

  // ---------- times as texts ----------

  /** The log's texts ascend when its times do and no two are misordered. */
  lemma LogAscends(log: seq<Record>, times: seq<Instant>)
    requires |times| == |log|
    requires forall i :: 0 <= i < |times| ==> times[i].Valid() && log[i].recordedAt == Text(times[i])
    requires forall i, j :: 0 <= i < j < |times| ==> Earlier(times[i], times[j])
    ensures Ascending(log) <==> forall i, j :: 0 <= i < j < |times| ==> !Misordered(times[i], times[j])
  {
    forall i, j | 0 <= i < j < |times|
      ensures Less(log[i].recordedAt, log[j].recordedAt) <==> !Misordered(times[i], times[j])
    {
      TextOrder(times[i], times[j]);
    }
  }

  /** A later record is seen by the next poll exactly when its text is not misordered. */
  lemma LaterRecordIsSeen(x: Instant, y: Instant, r: Record)
    requires x.Valid() && y.Valid() && Earlier(x, y) && r.recordedAt == Text(y)
    ensures NewRecords(Text(x), [r]) == (if Misordered(x, y) then [] else [r])
  {
    TextOrder(x, y);
    assert [r][1..] == [];
  }
}
