/**
 The network store (frontend/src/stores/network-store.ts). Every fetch takes a number from the counter of its
 field, awaits the response, and drops it unless its number is still the newest; acknowledging an anomaly and
 activating a baseline mark rows of the lists fetched; a scan flag says which node is being scanned.

 An event is the code before an await or the code after one. Responses arrive in any order.
 */
module NetworkStore {
  import opened Prelude

  type NodeId = string

  datatype Kind = Scans | Devices | Anomalies | Baselines | Tools

  /** One element of a response. flag is is_acknowledged of an anomaly and is_active of a baseline. */
  datatype Row = Row(id: nat, node: NodeId, scanType: string, startedAt: string, flag: bool)

  datatype Payload = List(rows: seq<Row>) | Other(value: nat)

  datatype Response = Loaded(body: Payload) | Failed(message: string)

  datatype Request = Request(kind: Kind, node: NodeId, number: nat, response: Option<Response>)

  datatype ScanStatus = ScanStatus(
    lastQuick: Option<string>, lastFull: Option<string>, isScanning: bool, scanningNodeId: Option<NodeId>)

  datatype Scope = Fetch(kind: Kind) | Trigger

  /** A completed acknowledgement or activation, or a failed one with the node its error was filed under. */
  datatype Action = Mark(id: nat) | Refused(node: NodeId, message: string)

  /**
   A field of the store: the number of its newest request, the list it holds (of scans, devices, anomalies or
   baselines), and the actions that completed since the list was last published, which the store does not keep.
   */
  datatype Field = Field(newest: nat, rows: seq<Row>, since: seq<Action>)

  const UNTOUCHED := Field(0, [], [])

  /**
   A kind without an entry in fields is untouched; tools is toolPreflightByNode; a scope without an entry in
   errors has no error. requests are the fetches ever started.
   */
  datatype State = State(
    fields: map<Kind, Field>, requests: seq<Request>, tools: map<NodeId, Payload>,
    errors: map<(NodeId, Scope), string>, status: ScanStatus)

  const INITIAL := State(map[], [], map[], map[], ScanStatus(None, None, false, None))

  function FieldOf(fields: map<Kind, Field>, kind: Kind): Field {
    if kind in fields then fields[kind] else UNTOUCHED
  }

  function At(s: State, kind: Kind): Field { FieldOf(s.fields, kind) }

  datatype Event =
    | Start(kind: Kind, node: NodeId)
    | Finish(r: nat, response: Response)
    | TriggerScan(node: NodeId)
    | TriggerFailed(node: NodeId, message: string)
    | ActionDone(kind: Kind, id: nat)                      // an acknowledgement or activation has succeeded
    | ActionFailed(kind: Kind, id: nat, message: string)   // or failed

  function RowsOf(response: Response): seq<Row> {
    if response.Loaded? && response.body.List? then response.body.rows else []
  }

  predicate IsFirst(rows: seq<Row>, k: nat, scanType: string)
    requires k < |rows|
  {
    rows[k].scanType == scanType && forall j :: 0 <= j < k ==> rows[j].scanType != scanType
  }

  /** Array.prototype.find on the scan type. */
  function FirstStart(rows: seq<Row>, scanType: string): (r: Option<string>)
    ensures r.None? <==> forall k :: 0 <= k < |rows| ==> rows[k].scanType != scanType
    ensures r.Some? ==> exists k :: 0 <= k < |rows| && IsFirst(rows, k, scanType) && rows[k].startedAt == r.value
  {
    if rows == [] then None
    else if rows[0].scanType == scanType then Some(rows[0].startedAt)
    else
      var rest := FirstStart(rows[1..], scanType);
      assert forall k :: 0 < k < |rows| ==> rows[k] == rows[1..][k - 1];
      assert forall k :: 0 <= k < |rows[1..]| ==> rows[1..][k] == rows[k + 1];
      rest
  }

  function StopScanning(status: ScanStatus, node: NodeId): ScanStatus {
    if status.scanningNodeId == Some(node) then status.(isScanning := false, scanningNodeId := None) else status
  }

  function SetError(errors: map<(NodeId, Scope), string>, node: NodeId, scope: Scope, response: Response)
    : map<(NodeId, Scope), string>
  {
    if response.Failed? then errors[(node, scope) := response.message] else errors - {(node, scope)}
  }

  function ScansStatus(status: ScanStatus, node: NodeId, rows: seq<Row>): ScanStatus {
    StopScanning(status, node).(lastQuick := FirstStart(rows, "quick"), lastFull := FirstStart(rows, "full"))
  }

  /** What the newest fetch of a kind puts into the store. */
  function Publish(s: State, kind: Kind, node: NodeId, response: Response): State {
    var s' := s.(errors := SetError(s.errors, node, Fetch(kind), response));
    if kind == Tools then
      if response.Loaded? then s'.(tools := s.tools[node := response.body]) else s'
    else
      var rows := RowsOf(response);
      s'.(fields := s.fields[kind := Field(At(s, kind).newest, rows, [])],
          status := if kind == Scans then ScansStatus(s.status, node, rows) else s.status)
  }

  // ---------- acknowledging and activating ----------

  /** The lists whose rows can be marked. */
  predicate Markable(kind: Kind) { kind == Anomalies || kind == Baselines }

  /** An acknowledged anomaly stays so; one baseline is active at a time. */
  function MarkedRow(kind: Kind, row: Row, id: nat): Row {
    row.(flag := row.id == id || (kind == Anomalies && row.flag))
  }

  function MarkedRows(kind: Kind, rows: seq<Row>, id: nat): seq<Row> {
    seq(|rows|, i requires 0 <= i < |rows| => MarkedRow(kind, rows[i], id))
  }

  /** The node of the first row with an ID, or the empty text. */
  function NodeOf(rows: seq<Row>, id: nat): NodeId {
    if rows == [] then "" else if rows[0].id == id then rows[0].node else NodeOf(rows[1..], id)
  }

  function Act(s: State, kind: Kind, id: nat): State {
    var f := At(s, kind);
    s.(fields := s.fields[kind := f.(rows := MarkedRows(kind, f.rows, id), since := f.since + [Mark(id)])])
  }

  function Refuse(s: State, kind: Kind, node: NodeId, message: string): State {
    var f := At(s, kind);
    s.(errors := s.errors[(node, Fetch(kind)) := message],
       fields := s.fields[kind := f.(since := f.since + [Refused(node, message)])])
  }

  predicate Pending(s: State, r: nat) {
    r < |s.requests| && s.requests[r].response.None?
  }

  predicate Newest(s: State, r: nat)
    requires r < |s.requests|
  {
    s.requests[r].number == At(s, s.requests[r].kind).newest
  }

  function Answered(s: State, r: nat, response: Response): State
    requires r < |s.requests|
  {
    s.(requests := s.requests[r := s.requests[r].(response := Some(response))])
  }

  function Step(s: State, e: Event): State {
    match e
    case Start(kind, node) =>
      var n := At(s, kind).newest + 1;
      s.(fields := s.fields[kind := At(s, kind).(newest := n)],
         requests := s.requests + [Request(kind, node, n, None)])
    case Finish(r, response) =>
      if !Pending(s, r) then s
      else if Newest(s, r) then
        Publish(Answered(s, r, response), s.requests[r].kind, s.requests[r].node, response)
      else Answered(s, r, response)
    case TriggerScan(node) =>
      s.(errors := s.errors - {(node, Trigger)},
         status := s.status.(isScanning := true, scanningNodeId := Some(node)))
    case TriggerFailed(node, message) =>
      if s.status.scanningNodeId != Some(node) then s
      else s.(errors := s.errors[(node, Trigger) := message], status := StopScanning(s.status, node))
    case ActionDone(kind, id) => if Markable(kind) then Act(s, kind, id) else s
    case ActionFailed(kind, id, message) =>
      var node := NodeOf(At(s, kind).rows, id);
      if Markable(kind) && node != "" then Refuse(s, kind, node, message) else s
  }

  function Run(s: State, events: seq<Event>): State {
    if events == [] then s else Step(Run(s, events[..|events| - 1]), events[|events| - 1])
  }

  // ---------- the store as the source has it ----------

  class Store {
    var fields: map<Kind, Field>
    var requests: seq<Request>
    var toolPreflightByNode: map<NodeId, Payload>
    var errorsByScope: map<(NodeId, Scope), string>
    var scanStatus: ScanStatus

    constructor ()
      ensures Abstract() == INITIAL
    {
      fields, requests := map[], [];
      toolPreflightByNode, errorsByScope := map[], map[];
      scanStatus := ScanStatus(None, None, false, None);
    }

    ghost function Abstract(): State
      reads this
    {
      State(fields, requests, toolPreflightByNode, errorsByScope, scanStatus)
    }

    /** Any fetch, up to its await. */
    method BeginFetch(kind: Kind, node: NodeId) returns (r: nat)
      modifies this
      ensures Abstract() == Step(old(Abstract()), Start(kind, node))
      ensures r == |old(requests)| && Pending(Abstract(), r)
    {
      r := |requests|;
      var field := FieldOf(fields, kind);
      fields := fields[kind := field.(newest := field.newest + 1)];
      requests := requests + [Request(kind, node, fields[kind].newest, None)];
    }

    /** fetchScans after its await. */
    method FinishScans(r: nat, response: Response)
      requires Pending(Abstract(), r) && requests[r].kind == Scans
      modifies this
      ensures Abstract() == Step(old(Abstract()), Finish(r, response))
    {
      var request := requests[r];
      requests := requests[r := request.(response := Some(response))];
      if request.number != FieldOf(fields, Scans).newest { return; }
      var mine := scanStatus.scanningNodeId == Some(request.node);
      var isScanning := if mine then false else scanStatus.isScanning;
      var scanningNodeId := if mine then None else scanStatus.scanningNodeId;
      match response
      case Loaded(body) =>
        var scans := if body.List? then body.rows else [];
        fields := fields[Scans := Field(request.number, scans, [])];
        errorsByScope := errorsByScope - {(request.node, Fetch(Scans))};
        scanStatus := ScanStatus(FirstStart(scans, "quick"), FirstStart(scans, "full"), isScanning, scanningNodeId);
      case Failed(message) =>
        fields := fields[Scans := Field(request.number, [], [])];
        errorsByScope := errorsByScope[(request.node, Fetch(Scans)) := message];
        scanStatus := ScanStatus(None, None, isScanning, scanningNodeId);
    }

    /** fetchDevices, fetchAnomalies and fetchBaselines after their await. */
    method FinishList(r: nat, response: Response)
      requires Pending(Abstract(), r) && requests[r].kind != Scans && requests[r].kind != Tools
      modifies this
      ensures Abstract() == Step(old(Abstract()), Finish(r, response))
    {
      var request := requests[r];
      requests := requests[r := request.(response := Some(response))];
      if request.number != FieldOf(fields, request.kind).newest { return; }
      match response
      case Loaded(body) =>
        fields := fields[request.kind := Field(request.number, if body.List? then body.rows else [], [])];
        errorsByScope := errorsByScope - {(request.node, Fetch(request.kind))};
      case Failed(message) =>
        fields := fields[request.kind := Field(request.number, [], [])];
        errorsByScope := errorsByScope[(request.node, Fetch(request.kind)) := message];
    }

    /** fetchToolPreflight after its await. */
    method FinishTools(r: nat, response: Response)
      requires Pending(Abstract(), r) && requests[r].kind == Tools
      modifies this
      ensures Abstract() == Step(old(Abstract()), Finish(r, response))
    {
      var request := requests[r];
      requests := requests[r := request.(response := Some(response))];
      if request.number != FieldOf(fields, Tools).newest { return; }
      match response
      case Loaded(body) =>
        toolPreflightByNode := toolPreflightByNode[request.node := body];
        errorsByScope := errorsByScope - {(request.node, Fetch(Tools))};
      case Failed(message) =>
        errorsByScope := errorsByScope[(request.node, Fetch(Tools)) := message];
    }

    /** triggerScan up to its await. */
    method BeginTrigger(node: NodeId)
      modifies this
      ensures Abstract() == Step(old(Abstract()), TriggerScan(node))
    {
      errorsByScope := errorsByScope - {(node, Trigger)};
      scanStatus := scanStatus.(isScanning := true, scanningNodeId := Some(node));
    }

    /** acknowledgeAnomaly after its await. */
    method CompleteAcknowledge(id: nat)
      modifies this
      ensures Abstract() == Step(old(Abstract()), ActionDone(Anomalies, id))
    {
      var field := FieldOf(fields, Anomalies);
      var rows := MarkedRows(Anomalies, field.rows, id);
      fields := fields[Anomalies := field.(rows := rows, since := field.since + [Mark(id)])];
    }

    method FailAcknowledge(id: nat, message: string)
      modifies this
      ensures Abstract() == Step(old(Abstract()), ActionFailed(Anomalies, id, message))
    {
      var field := FieldOf(fields, Anomalies);
      var node := NodeOf(field.rows, id);
      if node == "" { return; }
      errorsByScope := errorsByScope[(node, Fetch(Anomalies)) := message];
      fields := fields[Anomalies := field.(since := field.since + [Refused(node, message)])];
    }

    /** activateBaseline after its await. */
    method CompleteActivate(id: nat)
      modifies this
      ensures Abstract() == Step(old(Abstract()), ActionDone(Baselines, id))
    {
      var field := FieldOf(fields, Baselines);
      var rows := MarkedRows(Baselines, field.rows, id);
      fields := fields[Baselines := field.(rows := rows, since := field.since + [Mark(id)])];
    }

    method FailActivate(id: nat, message: string)
      modifies this
      ensures Abstract() == Step(old(Abstract()), ActionFailed(Baselines, id, message))
    {
      var field := FieldOf(fields, Baselines);
      var node := NodeOf(field.rows, id);
      if node == "" { return; }
      errorsByScope := errorsByScope[(node, Fetch(Baselines)) := message];
      fields := fields[Baselines := field.(since := field.since + [Refused(node, message)])];
    }

    /** The catch block of triggerScan. */
    method FailTrigger(node: NodeId, message: string)
      modifies this
      ensures Abstract() == Step(old(Abstract()), TriggerFailed(node, message))
    {
      if scanStatus.scanningNodeId != Some(node) { return; }
      errorsByScope := errorsByScope[(node, Trigger) := message];
      scanStatus := scanStatus.(isScanning := false, scanningNodeId := None);
    }
  }

  // ---------- what actions leave of an answer ----------

  /** The rows of an answer after some actions. */
  function Replayed(kind: Kind, rows: seq<Row>, actions: seq<Action>): seq<Row> {
    if actions == [] then rows else
    var before, last := Replayed(kind, rows, actions[..|actions| - 1]), actions[|actions| - 1];
    if last.Mark? then MarkedRows(kind, before, last.id) else before
  }

  /** The error of a node after some actions: that of the last one refused, or the one before them. */
  function ErrorAfter(error: Option<string>, actions: seq<Action>, node: NodeId): Option<string> {
    if actions == [] then error else
    var last := actions[|actions| - 1];
    if last.Refused? && last.node == node then Some(last.message)
    else ErrorAfter(error, actions[..|actions| - 1], node)
  }

  /** Anomalies keep their order and all but the flag, which those acknowledged since have, too. */
  lemma {:induction false} ReplayedAnomalies(rows: seq<Row>, actions: seq<Action>)
    ensures |Replayed(Anomalies, rows, actions)| == |rows|
    ensures forall i :: 0 <= i < |rows| ==>
      Replayed(Anomalies, rows, actions)[i] == rows[i].(flag := rows[i].flag || Mark(rows[i].id) in actions)
  {
    if actions == [] {
    } else {
      var before := actions[..|actions| - 1];
      ReplayedAnomalies(rows, before);
      assert actions == before + [actions[|actions| - 1]];
    }
  }

  /** The baseline activated last, or None. */
  function LastMark(actions: seq<Action>): Option<nat> {
    if actions == [] then None
    else if actions[|actions| - 1].Mark? then Some(actions[|actions| - 1].id)
    else LastMark(actions[..|actions| - 1])
  }

  /** Baselines keep their order and all but the flag, which only the one activated last has. */
  lemma {:induction false} ReplayedBaselines(rows: seq<Row>, actions: seq<Action>)
    ensures |Replayed(Baselines, rows, actions)| == |rows|
    ensures forall i :: 0 <= i < |rows| ==>
      Replayed(Baselines, rows, actions)[i]
      == if LastMark(actions).None? then rows[i] else rows[i].(flag := rows[i].id == LastMark(actions).value)
  {
    if actions == [] {
    } else {
      ReplayedBaselines(rows, actions[..|actions| - 1]);
    }
  }

  // ---------- a field shows the newest request's response ----------

  ghost predicate NumbersOk(s: State) {
    && (forall r :: 0 <= r < |s.requests| ==> 1 <= s.requests[r].number <= At(s, s.requests[r].kind).newest)
    && (forall q, r :: 0 <= q < r < |s.requests| && s.requests[q].kind == s.requests[r].kind ==>
        s.requests[q].number < s.requests[r].number)
  }

  function ErrorAt(s: State, key: (NodeId, Scope)): Option<string> {
    if key in s.errors then Some(s.errors[key]) else None
  }

  function ErrorOf(response: Response): Option<string> {
    if response.Failed? then Some(response.message) else None
  }

  /** The store shows what request r was answered, and on top of it the actions completed since. */
  ghost predicate Shows(s: State, r: nat)
    requires r < |s.requests| && s.requests[r].response.Some?
  {
    var Request(kind, node, _, response) := s.requests[r];
    var since := if Markable(kind) then At(s, kind).since else [];
    && (kind != Tools ==> At(s, kind).rows == Replayed(kind, RowsOf(response.value), since))
    && (kind == Tools && response.value.Loaded? ==> node in s.tools && s.tools[node] == response.value.body)
    && ErrorAt(s, (node, Fetch(kind))) == ErrorAfter(ErrorOf(response.value), since, node)
    && (kind == Scans ==>
          && s.status.lastQuick == FirstStart(RowsOf(response.value), "quick")
          && s.status.lastFull == FirstStart(RowsOf(response.value), "full"))
  }

  ghost predicate ShowsNewest(s: State) {
    forall r :: 0 <= r < |s.requests| && Newest(s, r) && s.requests[r].response.Some? ==> Shows(s, r)
  }

  ghost predicate FlagOk(s: State) {
    s.status.isScanning <==> s.status.scanningNodeId.Some?
  }

  ghost predicate Inv(s: State) { NumbersOk(s) && ShowsNewest(s) && FlagOk(s) }

  predicate SameRequest(q: Request, q': Request) { q'.kind == q.kind && q'.node == q.node && q'.number == q.number }

  /** The requests of two states agree on everything but the responses. */
  ghost predicate SameNumbers(s: State, s': State) {
    && (forall kind :: At(s', kind).newest == At(s, kind).newest) && |s'.requests| == |s.requests|
    && forall r :: 0 <= r < |s.requests| ==>
         SameRequest(s.requests[r], s'.requests[r])
  }

  lemma PublishKeepsRequests(s: State, kind: Kind, node: NodeId, response: Response)
    ensures var s' := Publish(s, kind, node, response);
      s'.requests == s.requests && forall k :: At(s', k).newest == At(s, k).newest
  {
  }

  lemma OnlyStartNumbers(s: State, e: Event)
    requires !e.Start?
    ensures SameNumbers(s, Step(s, e))
  {
    if e.Finish? && Pending(s, e.r) {
      PublishKeepsRequests(Answered(s, e.r, e.response), s.requests[e.r].kind, s.requests[e.r].node, e.response);
    }
  }

  lemma StepKeepsNumbers(s: State, e: Event)
    requires NumbersOk(s)
    ensures NumbersOk(Step(s, e))
  {
    if !e.Start? {
      OnlyStartNumbers(s, e);
    }
  }

  /** Publishing for a request makes the store show it; publishing for another kind leaves what it shows. */
  lemma PublishShows(s: State, kind: Kind, node: NodeId, response: Response, r: nat)
    requires r < |s.requests| && s.requests[r].response.Some?
    requires s.requests[r].kind == kind && s.requests[r].node == node && s.requests[r].response.value == response
    ensures r < |Publish(s, kind, node, response).requests|
    ensures Publish(s, kind, node, response).requests[r] == s.requests[r]
    ensures Shows(Publish(s, kind, node, response), r)
  {
    PublishKeepsRequests(s, kind, node, response);
  }

  lemma PublishLeavesShown(s: State, kind: Kind, node: NodeId, response: Response, r: nat)
    requires r < |s.requests| && s.requests[r].response.Some? && kind != s.requests[r].kind && Shows(s, r)
    ensures r < |Publish(s, kind, node, response).requests|
    ensures Publish(s, kind, node, response).requests[r] == s.requests[r]
    ensures Shows(Publish(s, kind, node, response), r)
  {
    PublishKeepsRequests(s, kind, node, response);
  }

  lemma OneMoreAction(kind: Kind, rows: seq<Row>, error: Option<string>, actions: seq<Action>, a: Action, node: NodeId)
    ensures Replayed(kind, rows, actions + [a])
         == var before := Replayed(kind, rows, actions); if a.Mark? then MarkedRows(kind, before, a.id) else before
    ensures ErrorAfter(error, actions + [a], node)
         == if a.Refused? && a.node == node then Some(a.message) else ErrorAfter(error, actions, node)
  {
    assert (actions + [a])[..|actions + [a]| - 1] == actions;
  }

  /** One more action on a kind shows on top of what a request of the kind shows. */
  lemma ActKeepsShown(s: State, kind: Kind, id: nat, r: nat)
    requires r < |s.requests| && s.requests[r].response.Some? && Markable(kind) && Shows(s, r)
    ensures Shows(Act(s, kind, id), r)
  {
    var q := s.requests[r];
    OneMoreAction(kind, RowsOf(q.response.value), ErrorOf(q.response.value), At(s, kind).since, Mark(id), q.node);
  }

  lemma RefuseKeepsShown(s: State, kind: Kind, node: NodeId, message: string, r: nat)
    requires r < |s.requests| && s.requests[r].response.Some? && Markable(kind) && Shows(s, r)
    ensures Shows(Refuse(s, kind, node, message), r)
  {
    var q, s' := s.requests[r], Refuse(s, kind, node, message);
    if q.kind == kind {
      OneMoreAction(kind, RowsOf(q.response.value), ErrorOf(q.response.value), At(s, kind).since,
                    Refused(node, message), q.node);
    } else {
      assert At(s', q.kind) == At(s, q.kind) && ErrorAt(s', (q.node, Fetch(q.kind))) == ErrorAt(s, (q.node, Fetch(q.kind)));
    }
  }

  lemma ActionKeepsShown(s: State, e: Event, r: nat)
    requires e.ActionDone? || e.ActionFailed?
    requires r < |s.requests| && s.requests[r].response.Some? && Shows(s, r)
    ensures Step(s, e).requests == s.requests && Shows(Step(s, e), r)
  {
    if Markable(e.kind) {
      if e.ActionDone? {
        ActKeepsShown(s, e.kind, e.id, r);
      } else {
        RefuseKeepsShown(s, e.kind, NodeOf(At(s, e.kind).rows, e.id), e.message, r);
      }
    }
  }

  lemma StepKeepsShown(s: State, e: Event, r: nat)
    requires NumbersOk(s) && r < |s.requests| && s.requests[r].response.Some? && Newest(s, r) && Shows(s, r)
    ensures r < |Step(s, e).requests| && Step(s, e).requests[r] == s.requests[r] && Shows(Step(s, e), r)
  {
    if e.ActionDone? || e.ActionFailed? {
      ActionKeepsShown(s, e, r);
    } else if e.Finish? && Pending(s, e.r) {
      var q := s.requests[e.r];
      var s1 := Answered(s, e.r, e.response);
      assert Shows(s1, r);
      if Newest(s, e.r) {
        assert q.kind != s.requests[r].kind;
        PublishKeepsRequests(s1, q.kind, q.node, e.response);
        PublishLeavesShown(s1, q.kind, q.node, e.response, r);
      }
    }
  }

  lemma FinishShows(s: State, r: nat, response: Response)
    requires Pending(s, r) && Newest(s, r)
    ensures r < |Step(s, Finish(r, response)).requests|
    ensures Step(s, Finish(r, response)).requests[r].response == Some(response)
    ensures Shows(Step(s, Finish(r, response)), r)
  {
    var q := s.requests[r];
    PublishKeepsRequests(Answered(s, r, response), q.kind, q.node, response);
    PublishShows(Answered(s, r, response), q.kind, q.node, response, r);
  }

  lemma StepKeepsFlag(s: State, e: Event)
    requires FlagOk(s)
    ensures FlagOk(Step(s, e))
  {
  }

  lemma NewestWas(s: State, e: Event, r: nat)
    requires NumbersOk(s) && r < |Step(s, e).requests|
    requires Newest(Step(s, e), r) && Step(s, e).requests[r].response.Some?
    ensures r < |s.requests| && Newest(s, r)
    ensures s.requests[r].response.Some? || (Pending(s, r) && e.Finish? && e.r == r)
  {
    if !e.Start? {
      OnlyStartNumbers(s, e);
    }
    if e.Finish? && Pending(s, e.r) {
      PublishKeepsRequests(Answered(s, e.r, e.response), s.requests[e.r].kind, s.requests[e.r].node, e.response);
    }
  }

  lemma StepKeepsInv(s: State, e: Event)
    requires Inv(s)
    ensures Inv(Step(s, e))
  {
    var s' := Step(s, e);
    StepKeepsNumbers(s, e);
    StepKeepsFlag(s, e);
    forall r | 0 <= r < |s'.requests| && Newest(s', r) && s'.requests[r].response.Some? ensures Shows(s', r) {
      NewestWas(s, e, r);
      if s.requests[r].response.Some? {
        StepKeepsShown(s, e, r);
      } else {
        FinishShows(s, r, e.response);
      }
    }
  }

  /**
   In every run, whatever the order of the responses: once the newest fetch of a kind has been answered the
   store shows its answer and no other, with the acknowledgements and activations completed since on top of it;
   and the scan flag is up exactly while a node is named.
   */
  lemma {:induction false} EveryRunShowsNewest(events: seq<Event>)
    ensures Inv(Run(INITIAL, events))
  {
    if events == [] {
    } else {
      EveryRunShowsNewest(events[..|events| - 1]);
      StepKeepsInv(Run(INITIAL, events[..|events| - 1]), events[|events| - 1]);
    }
  }

  // ---------- no older response overwrites a newer one ----------

  /** s' comes after s: counters never fall, requests keep their numbers and their answers. */
  ghost predicate Later(s: State, s': State) {
    && (forall kind: Kind :: At(s, kind).newest <= At(s', kind).newest)
    && |s.requests| <= |s'.requests|
    && (forall r :: 0 <= r < |s.requests| ==>
         SameRequest(s.requests[r], s'.requests[r]))
    && (forall r :: 0 <= r < |s.requests| && s.requests[r].response.Some? ==>
         s'.requests[r].response == s.requests[r].response)
  }

  lemma StepLater(s: State, e: Event)
    ensures Later(s, Step(s, e))
  {
    if !e.Start? { OnlyStartNumbers(s, e); }
    if e.Finish? && Pending(s, e.r) {
      PublishKeepsRequests(Answered(s, e.r, e.response), s.requests[e.r].kind, s.requests[e.r].node, e.response);
    }
  }

  lemma LaterTransitive(a: State, b: State, c: State)
    requires Later(a, b) && Later(b, c)
    ensures Later(a, c)
  {
  }

  lemma {:induction false} RunLater(s: State, events: seq<Event>, i: nat)
    requires i <= |events|
    ensures Later(Run(s, events[..i]), Run(s, events))
  {
    var n := |events|;
    if i == n {
      assert events[..i] == events;
    } else {
      RunLater(s, events[..n - 1], i);
      assert events[..n - 1][..i] == events[..i];
      StepLater(Run(s, events[..n - 1]), events[n - 1]);
      LaterTransitive(Run(s, events[..i]), Run(s, events[..n - 1]), Run(s, events));
    }
  }

  /** The event publishes the response of the newest request of the kind. */
  predicate Publishes(s: State, e: Event, kind: Kind) {
    e.Finish? && Pending(s, e.r) && s.requests[e.r].kind == kind && Newest(s, e.r)
  }

  /** The two states hold the same for a kind: its list, its errors, and what is derived from it. */
  ghost predicate SameField(s: State, s': State, kind: Kind) {
    && At(s', kind).rows == At(s, kind).rows
    && (kind == Tools ==> s'.tools == s.tools)
    && (kind == Scans ==> s'.status.lastQuick == s.status.lastQuick && s'.status.lastFull == s.status.lastFull)
    && forall node :: SameError(s, s', (node, Fetch(kind)))
  }

  predicate SameError(s: State, s': State, key: (NodeId, Scope)) { ErrorAt(s, key) == ErrorAt(s', key) }

  lemma PublishLeavesOthers(s: State, published: Kind, node: NodeId, response: Response, kind: Kind)
    requires kind != published
    ensures SameField(s, Publish(s, published, node, response), kind)
  {
  }

  /** The event marks rows of the kind, or files an error for it. */
  predicate ActsOn(e: Event, kind: Kind) {
    (e.ActionDone? || e.ActionFailed?) && e.kind == kind
  }

  lemma SameFieldOfAnswered(s: State, r: nat, response: Response, s': State, kind: Kind)
    requires r < |s.requests| && SameField(Answered(s, r, response), s', kind)
    ensures SameField(s, s', kind)
  {
    forall node ensures SameError(s, s', (node, Fetch(kind))) {
      assert SameError(Answered(s, r, response), s', (node, Fetch(kind)));
    }
  }

  lemma FinishLeavesField(s: State, r: nat, response: Response, kind: Kind)
    requires !Publishes(s, Finish(r, response), kind)
    ensures SameField(s, Step(s, Finish(r, response)), kind)
  {
    if Pending(s, r) && Newest(s, r) {
      var q, s1 := s.requests[r], Answered(s, r, response);
      PublishLeavesOthers(s1, q.kind, q.node, response, kind);
      SameFieldOfAnswered(s, r, response, Step(s, Finish(r, response)), kind);
    }
  }

  lemma ActionLeavesField(s: State, e: Event, kind: Kind)
    requires (e.ActionDone? || e.ActionFailed?) && e.kind != kind
    ensures SameField(s, Step(s, e), kind)
  {
  }

  /** Only the newest request of a kind, and an action on it, can change what the store holds for the kind. */
  lemma OnlyNewestChanges(s: State, e: Event, kind: Kind)
    requires !Publishes(s, e, kind) && !ActsOn(e, kind)
    ensures SameField(s, Step(s, e), kind)
  {
    if e.Finish? {
      FinishLeavesField(s, e.r, e.response, kind);
    } else if e.ActionDone? || e.ActionFailed? {
      ActionLeavesField(s, e, kind);
    }
  }

  /** In every run the requests that publish for a kind do so in the order in which they were started. */
  lemma OlderNeverOverwrites(events: seq<Event>, i: nat, j: nat, kind: Kind)
    requires i < j < |events|
    requires Publishes(Run(INITIAL, events[..i]), events[i], kind)
    requires Publishes(Run(INITIAL, events[..j]), events[j], kind)
    ensures events[i].r < events[j].r
  {
    assert events[..i + 1][..i] == events[..i] && events[..j][..i + 1] == events[..i + 1];
    RunLater(INITIAL, events[..j], i + 1);
    EveryRunShowsNewest(events[..j]);
    LaterPublishesLater(Run(INITIAL, events[..i]), events[i], Run(INITIAL, events[..j]), events[j], kind);
  }

  lemma LaterPublishesLater(s: State, e: Event, s': State, e': Event, kind: Kind)
    requires Publishes(s, e, kind) && Later(Step(s, e), s') && Publishes(s', e', kind) && NumbersOk(s')
    ensures e.r < e'.r
  {
    var q := s.requests[e.r];
    OnlyStartNumbers(s, e);
    FinishShows(s, e.r, e.response);
    assert s'.requests[e.r].kind == kind && s'.requests[e.r].number == q.number <= s'.requests[e'.r].number;
  }

  // ---------- the scan flag ----------

  /** The event ends, or replaces, the scan that the store shows for a node. */
  predicate EndsScan(s: State, e: Event, node: NodeId) {
    || (Publishes(s, e, Scans) && s.requests[e.r].node == node)
    || (e.TriggerFailed? && e.node == node)
    || (e.TriggerScan? && e.node != node)
  }

  /** Event k triggers a scan of the node and no event after it ends that scan. */
  ghost predicate TriggeredAndOpen(events: seq<Event>, k: nat, node: NodeId) {
    var n := |events| - 1;
    k <= n &&
    if k == n then events[n] == TriggerScan(node)
    else TriggeredAndOpen(events[..n], k, node) && !EndsScan(Run(INITIAL, events[..n]), events[n], node)
  }

  lemma FinishScanning(s: State, e: Event, node: NodeId)
    requires e.Finish?
    ensures Step(s, e).status.scanningNodeId == Some(node)
      <==> s.status.scanningNodeId == Some(node) && !EndsScan(s, e, node)
  {
  }

  lemma StepScanning(s: State, e: Event, node: NodeId)
    ensures Step(s, e).status.scanningNodeId == Some(node)
      <==> e == TriggerScan(node) || (s.status.scanningNodeId == Some(node) && !EndsScan(s, e, node))
  {
    if e.Finish? { FinishScanning(s, e, node); }
  }

  ghost predicate ScanOpen(events: seq<Event>, node: NodeId) {
    exists k: nat :: TriggeredAndOpen(events, k, node)
  }

  lemma OpenByOneMore(before: seq<Event>, e: Event, node: NodeId)
    ensures ScanOpen(before + [e], node)
      <==> e == TriggerScan(node) || (ScanOpen(before, node) && !EndsScan(Run(INITIAL, before), e, node))
  {
    var events := before + [e];
    var ends := EndsScan(Run(INITIAL, before), e, node);
    assert events[..|before|] == before;
    assert TriggeredAndOpen(events, |before|, node) <==> e == TriggerScan(node);
    forall k: nat | k < |before|
      ensures TriggeredAndOpen(events, k, node) <==> TriggeredAndOpen(before, k, node) && !ends
    {
    }
    forall k: nat | k > |before| ensures !TriggeredAndOpen(events, k, node) {
    }
    if k: nat :| TriggeredAndOpen(before, k, node) {
      assert TriggeredAndOpen(events, k, node) <==> !ends;
    }
  }

  /**
   In every run the store shows a node as being scanned exactly when a scan of it was triggered and since
   then no failure to trigger one was reported for it, no newest list of its scans arrived, and no scan of
   another node was triggered.
   */
  lemma {:induction false} ScanningMeansTriggered(events: seq<Event>, node: NodeId)
    ensures Run(INITIAL, events).status.scanningNodeId == Some(node) <==> ScanOpen(events, node)
  {
    if events == [] {
      forall k: nat ensures !TriggeredAndOpen(events, k, node) {}
    } else {
      var before, e := events[..|events| - 1], events[|events| - 1];
      ScanningMeansTriggered(before, node);
      StepScanning(Run(INITIAL, before), e, node);
      assert events == before + [e];
      OpenByOneMore(before, e, node);
    }
  }

  /** A list of scans requested before the scan was triggered ends the flag when it arrives after. */
  lemma EarlierFetchEndsScan(s: State, node: NodeId, response: Response)
    ensures var triggered := Step(Step(s, Start(Scans, node)), TriggerScan(node));
      && triggered.status.isScanning
      && !Step(triggered, Finish(|s.requests|, response)).status.isScanning
  {
  }

  // ---------- the errors of actions and triggers ----------

  lemma {:induction false} NodeOfFirst(rows: seq<Row>, id: nat, k: nat)
    requires k < |rows| && rows[k].id == id && forall j :: 0 <= j < k ==> rows[j].id != id
    ensures NodeOf(rows, id) == rows[k].node
  {
    if k == 0 {
    } else {
      NodeOfFirst(rows[1..], id, k - 1);
    }
  }

  /** A refused action on a row that is shown files its error under the node of the first row with the ID. */
  lemma RefusalIsFiled(s: State, kind: Kind, id: nat, message: string, k: nat)
    requires Markable(kind) && k < |At(s, kind).rows| && At(s, kind).rows[k].id == id
    requires forall j :: 0 <= j < k ==> At(s, kind).rows[j].id != id
    ensures var s', node := Step(s, ActionFailed(kind, id, message)), At(s, kind).rows[k].node;
      if node == "" then s' == s
      else
        && s'.errors == s.errors[(node, Fetch(kind)) := message]
        && (forall other :: At(s', other).rows == At(s, other).rows && At(s', other).newest == At(s, other).newest)
        && s'.requests == s.requests && s'.tools == s.tools && s'.status == s.status
  {
    NodeOfFirst(At(s, kind).rows, id, k);
  }

  /** One on a row that is not shown files none. */
  lemma UnknownIsNotFiled(s: State, kind: Kind, id: nat, message: string)
    requires forall j :: 0 <= j < |At(s, kind).rows| ==> At(s, kind).rows[j].id != id
    ensures Step(s, ActionFailed(kind, id, message)) == s
  {
    NotAmong(At(s, kind).rows, id);
  }

  lemma {:induction false} NotAmong(rows: seq<Row>, id: nat)
    requires forall j :: 0 <= j < |rows| ==> rows[j].id != id
    ensures NodeOf(rows, id) == ""
  {
    if rows == [] {
    } else {
      assert forall j :: 0 <= j < |rows[1..]| ==> rows[1..][j] == rows[j + 1];
      NotAmong(rows[1..], id);
    }
  }

  lemma StepTriggerError(s: State, e: Event, node: NodeId)
    ensures ErrorAt(Step(s, e), (node, Trigger))
      == if e == TriggerScan(node) then None
         else if e.TriggerFailed? && e.node == node && s.status.scanningNodeId == Some(node) then Some(e.message)
         else ErrorAt(s, (node, Trigger))
  {
  }

  /** The message of the last failed trigger of a node whose scan was still shown, if none was triggered since. */
  ghost function TriggerErrorAfter(events: seq<Event>, node: NodeId): Option<string> {
    if events == [] then None else
    var before, e := events[..|events| - 1], events[|events| - 1];
    if e == TriggerScan(node) then None
    else if e.TriggerFailed? && e.node == node && ScanOpen(before, node) then Some(e.message)
    else TriggerErrorAfter(before, node)
  }

  /** That is the error every run shows for triggering a scan. */
  lemma {:induction false} TriggerErrorExactly(events: seq<Event>, node: NodeId)
    ensures ErrorAt(Run(INITIAL, events), (node, Trigger)) == TriggerErrorAfter(events, node)
  {
    if events == [] {
    } else {
      var before := events[..|events| - 1];
      TriggerErrorExactly(before, node);
      ScanningMeansTriggered(before, node);
      StepTriggerError(Run(INITIAL, before), events[|events| - 1], node);
    }
  }

  // ---------- which answers are kept ----------

  function StartsOf(events: seq<Event>, kind: Kind): nat {
    if events == [] then 0
    else StartsOf(events[..|events| - 1], kind)
         + (if events[|events| - 1].Start? && events[|events| - 1].kind == kind then 1 else 0)
  }

  /** In every run the counter of a kind has counted its fetches. */
  lemma {:induction false} CountersCount(events: seq<Event>, kind: Kind)
    ensures At(Run(INITIAL, events), kind).newest == StartsOf(events, kind)
  {
    if events == [] {
    } else {
      var before, e := events[..|events| - 1], events[|events| - 1];
      CountersCount(before, kind);
      if !e.Start? { OnlyStartNumbers(Run(INITIAL, before), e); }
    }
  }

  /** Every response answers its own request, once, whether it is published or not. */
  lemma FinishAnswers(s: State, r: nat, response: Response)
    requires Pending(s, r)
    ensures Step(s, Finish(r, response)).requests == s.requests[r := s.requests[r].(response := Some(response))]
    ensures forall again :: Step(Step(s, Finish(r, response)), Finish(r, again)) == Step(s, Finish(r, response))
  {
    PublishKeepsRequests(Answered(s, r, response), s.requests[r].kind, s.requests[r].node, response);
  }

  /** The counter of a kind is the number of its last request. */
  ghost predicate Counted(s: State) {
    forall kind: Kind :: At(s, kind).newest > 0 ==> HasNewest(s, kind)
  }

  ghost predicate HasNewest(s: State, kind: Kind) {
    exists r :: 0 <= r < |s.requests| && s.requests[r].kind == kind && s.requests[r].number == At(s, kind).newest
  }

  lemma StepKeepsCounted(s: State, e: Event)
    requires Counted(s)
    ensures Counted(Step(s, e))
  {
    var s' := Step(s, e);
    if !e.Start? { OnlyStartNumbers(s, e); }
    forall kind: Kind | At(s', kind).newest > 0 ensures HasNewest(s', kind) {
      if e.Start? && e.kind == kind {
        assert s'.requests[|s.requests|].kind == kind;
      } else {
        assert HasNewest(s, kind);
        var r :| 0 <= r < |s.requests| && s.requests[r].kind == kind && s.requests[r].number == At(s, kind).newest;
        assert s'.requests[r].kind == kind && s'.requests[r].number == At(s', kind).newest;
      }
    }
  }

  lemma {:induction false} RunCounted(events: seq<Event>)
    ensures Counted(Run(INITIAL, events))
  {
    if events == [] {
    } else {
      RunCounted(events[..|events| - 1]);
      StepKeepsCounted(Run(INITIAL, events[..|events| - 1]), events[|events| - 1]);
    }
  }

  ghost predicate NoLaterRequest(s: State, r: nat)
    requires r < |s.requests|
  {
    forall q :: r < q < |s.requests| ==> s.requests[q].kind != s.requests[r].kind
  }

  /** In every run an answer is published exactly when no request of its kind was started after its own. */
  lemma PublishedExactly(events: seq<Event>, r: nat, response: Response)
    requires Pending(Run(INITIAL, events), r)
    ensures var s := Run(INITIAL, events);
      Publishes(s, Finish(r, response), s.requests[r].kind) <==> NoLaterRequest(s, r)
  {
    var s := Run(INITIAL, events);
    EveryRunShowsNewest(events);
    RunCounted(events);
    var kind := s.requests[r].kind;
    if NoLaterRequest(s, r) {
      assert HasNewest(s, kind);
      var q :| 0 <= q < |s.requests| && s.requests[q].kind == kind && s.requests[q].number == At(s, kind).newest;
      assert q <= r;
    }
  }

  /**
   The tool fetches of all nodes share one counter. So in every run the answer for a node is stored exactly when
   no tools were asked for, of this or any other node, after they were asked for this one; else it is dropped.
   */
  lemma ToolAnswerIsKeptExactly(events: seq<Event>, r: nat, body: Payload)
    requires Pending(Run(INITIAL, events), r) && Run(INITIAL, events).requests[r].kind == Tools
    ensures var s := Run(INITIAL, events);
      Step(s, Finish(r, Loaded(body))).tools
      == if NoLaterRequest(s, r) then s.tools[s.requests[r].node := body] else s.tools
  {
    PublishedExactly(events, r, Loaded(body));
  }

  // ---------- how long marks and the scan flag last ----------

  /** A request of a kind, for a node if one is given. */
  predicate AsksFor(q: Request, kind: Kind, node: Option<NodeId>) {
    q.kind == kind && (node.None? || node.value == q.node)
  }

  /** An open one that would be published if it were answered now. */
  predicate Publishable(s: State, r: nat, kind: Kind, node: Option<NodeId>) {
    Pending(s, r) && Newest(s, r) && AsksFor(s.requests[r], kind, node)
  }

  ghost predicate NewestIsOpen(s: State, n: nat, kind: Kind, node: Option<NodeId>) {
    exists r :: 0 <= r < n && Publishable(s, r, kind, node)
  }

  /** One that does not become publishable any more: it is answered, or a newer one was started. */
  predicate Superseded(s: State, r: nat, kind: Kind) {
    r < |s.requests| && (s.requests[r].response.Some? || s.requests[r].number < At(s, kind).newest)
  }

  ghost predicate AllSuperseded(s: State, n: nat, kind: Kind, node: Option<NodeId>) {
    n <= |s.requests| && forall r :: 0 <= r < n && AsksFor(s.requests[r], kind, node) ==> Superseded(s, r, kind)
  }

  lemma SupersededOrOpen(s: State, kind: Kind, node: Option<NodeId>)
    requires NumbersOk(s)
    ensures !NewestIsOpen(s, |s.requests|, kind, node) ==> AllSuperseded(s, |s.requests|, kind, node)
  {
    forall r | 0 <= r < |s.requests| && AsksFor(s.requests[r], kind, node)
      ensures Superseded(s, r, kind) || Publishable(s, r, kind, node)
    {
      assert s.requests[r].number <= At(s, s.requests[r].kind).newest;
    }
  }

  lemma StepKeepsSuperseded(s: State, e: Event, n: nat, kind: Kind, node: Option<NodeId>)
    requires AllSuperseded(s, n, kind, node)
    ensures AllSuperseded(Step(s, e), n, kind, node)
  {
    var s' := Step(s, e);
    StepLater(s, e);
    forall r | 0 <= r < n && AsksFor(s'.requests[r], kind, node) ensures Superseded(s', r, kind) {
      assert SameRequest(s.requests[r], s'.requests[r]) && Superseded(s, r, kind);
    }
  }

  /** The rows of an ID carry the mark: an anomaly is acknowledged, a baseline is the only active one. */
  ghost predicate Marked(kind: Kind, rows: seq<Row>, id: nat) {
    if kind == Baselines then forall i :: 0 <= i < |rows| ==> (rows[i].flag <==> rows[i].id == id)
    else forall i :: 0 <= i < |rows| && rows[i].id == id ==> rows[i].flag
  }

  /**
   The event does not itself take the mark back: an answer to a request of the kind that was started as the n-th
   or later has the mark, and no other baseline is activated.
   */
  ghost predicate RespectsMark(s: State, e: Event, n: nat, kind: Kind, id: nat) {
    && (e.Finish? && n <= e.r < |s.requests| && s.requests[e.r].kind == kind ==> Marked(kind, RowsOf(e.response), id))
    && (kind == Baselines && e.ActionDone? && e.kind == Baselines ==> e.id == id)
  }

  ghost predicate AllRespectMark(s: State, events: seq<Event>, n: nat, kind: Kind, id: nat) {
    events == [] ||
    var before, e := events[..|events| - 1], events[|events| - 1];
    AllRespectMark(s, before, n, kind, id) && RespectsMark(Run(s, before), e, n, kind, id)
  }

  lemma MarkingMarks(kind: Kind, rows: seq<Row>, id: nat)
    ensures Marked(kind, MarkedRows(kind, rows, id), id)
  {
  }

  lemma StepKeepsMark(s: State, e: Event, n: nat, kind: Kind, id: nat)
    requires Markable(kind) && AllSuperseded(s, n, kind, None) && Marked(kind, At(s, kind).rows, id)
    requires RespectsMark(s, e, n, kind, id)
    ensures Marked(kind, At(Step(s, e), kind).rows, id)
  {
    if Publishes(s, e, kind) {
      assert e.r < n ==> Superseded(s, e.r, kind);
      assert At(Step(s, e), kind).rows == RowsOf(e.response);
    } else if !ActsOn(e, kind) {
      OnlyNewestChanges(s, e, kind);
    } else if e.ActionDone? {
      assert At(Step(s, e), kind).rows == MarkedRows(kind, At(s, kind).rows, e.id);
    }
  }

  lemma {:induction false} RunKeepsMark(s: State, events: seq<Event>, n: nat, kind: Kind, id: nat)
    requires Markable(kind) && AllSuperseded(s, n, kind, None) && Marked(kind, At(s, kind).rows, id)
    requires AllRespectMark(s, events, n, kind, id)
    ensures AllSuperseded(Run(s, events), n, kind, None) && Marked(kind, At(Run(s, events), kind).rows, id)
  {
    if events == [] {
    } else {
      var before, e := events[..|events| - 1], events[|events| - 1];
      RunKeepsMark(s, before, n, kind, id);
      StepKeepsSuperseded(Run(s, before), e, n, kind, None);
      StepKeepsMark(Run(s, before), e, n, kind, id);
    }
  }

  /**
   An acknowledgement or activation lasts - as long as every list asked for later has it, and no other baseline is
   activated - exactly when no newest list of its kind is being asked for at the moment it completes. If one is,
   its answer, which need not know of the action, takes the mark back.
   */
  lemma MarkLastsExactly(s: State, kind: Kind, id: nat)
    requires NumbersOk(s) && Markable(kind)
    ensures var marked, n := Step(s, ActionDone(kind, id)), |s.requests|;
      (forall events :: AllRespectMark(marked, events, n, kind, id) ==>
         Marked(kind, At(Run(marked, events), kind).rows, id))
      <==> !NewestIsOpen(s, n, kind, None)
  {
    var marked, n := Step(s, ActionDone(kind, id)), |s.requests|;
    if NewestIsOpen(s, n, kind, None) {
      var r :| 0 <= r < n && Publishable(s, r, kind, None);
      var rows := [Row(id, "n", "", "", false)];
      var events := [Finish(r, Loaded(List(rows)))];
      UnmarkingAnswer(s, r, kind, id, Loaded(List(rows)));
      assert rows[0].id == id && !rows[0].flag;
      OneEvent(marked, events[0]);
      assert events[..|events| - 1] == [] && RespectsMark(marked, events[0], n, kind, id);
      assert AllRespectMark(marked, events, n, kind, id);
      assert !Marked(kind, At(Run(marked, events), kind).rows, id);
    } else {
      SupersededOrOpen(s, kind, None);
      StepKeepsSuperseded(s, ActionDone(kind, id), n, kind, None);
      MarkingMarks(kind, At(s, kind).rows, id);
      forall events | AllRespectMark(marked, events, n, kind, id)
        ensures Marked(kind, At(Run(marked, events), kind).rows, id)
      {
        RunKeepsMark(marked, events, n, kind, id);
      }
    }
  }

  lemma OneEvent(s: State, e: Event)
    ensures [e][..0] == [] && Run(s, [e]) == Step(s, e)
  {
  }

  /** The answer of the newest list, asked for before the action, replaces what the action marked. */
  lemma UnmarkingAnswer(s: State, r: nat, kind: Kind, id: nat, response: Response)
    requires Markable(kind) && Publishable(s, r, kind, None)
    ensures At(Step(Step(s, ActionDone(kind, id)), Finish(r, response)), kind).rows == RowsOf(response)
  {
    assert Publishes(Step(s, ActionDone(kind, id)), Finish(r, response), kind);
  }

  /** An anomaly or baseline marked while an earlier list is on its way is shown unmarked when that list says so. */
  lemma EarlierListUndoesMark(s: State, kind: Kind, node: NodeId, id: nat, response: Response)
    requires Markable(kind) && !Marked(kind, RowsOf(response), id)
    ensures var marked := Step(Step(s, Start(kind, node)), ActionDone(kind, id));
      && Marked(kind, At(marked, kind).rows, id)
      && !Marked(kind, At(Step(marked, Finish(|s.requests|, response)), kind).rows, id)
  {
    var asked := Step(s, Start(kind, node));
    MarkingMarks(kind, At(asked, kind).rows, id);
    UnmarkingAnswer(asked, |s.requests|, kind, id, response);
  }

  /** The event ends no scan of the node by a failure, another trigger, or a list asked for as the n-th or later. */
  predicate RespectsScan(s: State, e: Event, n: nat, node: NodeId) {
    && !(e.Finish? && n <= e.r < |s.requests| && s.requests[e.r].kind == Scans && s.requests[e.r].node == node)
    && !(e.TriggerFailed? && e.node == node) && !(e.TriggerScan? && e.node != node)
  }

  ghost predicate AllRespectScan(s: State, events: seq<Event>, n: nat, node: NodeId) {
    events == [] ||
    var before, e := events[..|events| - 1], events[|events| - 1];
    AllRespectScan(s, before, n, node) && RespectsScan(Run(s, before), e, n, node)
  }

  lemma StepKeepsScan(s: State, e: Event, n: nat, node: NodeId)
    requires AllSuperseded(s, n, Scans, Some(node)) && s.status.scanningNodeId == Some(node)
    requires RespectsScan(s, e, n, node)
    ensures Step(s, e).status.scanningNodeId == Some(node)
  {
    StepScanning(s, e, node);
    var early := e.Finish? && e.r < n && AsksFor(s.requests[e.r], Scans, Some(node));
    assert early ==> Superseded(s, e.r, Scans);
  }

  lemma {:induction false} RunKeepsScan(s: State, events: seq<Event>, n: nat, node: NodeId)
    requires AllSuperseded(s, n, Scans, Some(node)) && s.status.scanningNodeId == Some(node)
    requires AllRespectScan(s, events, n, node)
    ensures AllSuperseded(Run(s, events), n, Scans, Some(node))
    ensures Run(s, events).status.scanningNodeId == Some(node)
  {
    if events == [] {
    } else {
      var before, e := events[..|events| - 1], events[|events| - 1];
      RunKeepsScan(s, before, n, node);
      StepKeepsSuperseded(Run(s, before), e, n, Scans, Some(node));
      StepKeepsScan(Run(s, before), e, n, node);
    }
  }

  /**
   The scan flag lasts until a list of the node's scans asked for after the trigger - unless the trigger fails or
   another node is triggered - exactly when no newest list of its scans is being asked for at the trigger.
   */
  lemma ScanFlagLastsExactly(s: State, node: NodeId)
    requires NumbersOk(s)
    ensures var triggered, n := Step(s, TriggerScan(node)), |s.requests|;
      (forall events :: AllRespectScan(triggered, events, n, node) ==>
         Run(triggered, events).status.scanningNodeId == Some(node))
      <==> !NewestIsOpen(s, n, Scans, Some(node))
  {
    var triggered, n := Step(s, TriggerScan(node)), |s.requests|;
    if NewestIsOpen(s, n, Scans, Some(node)) {
      var r :| 0 <= r < n && Publishable(s, r, Scans, Some(node));
      var events := [Finish(r, Failed(""))];
      OneEvent(triggered, events[0]);
      StepScanning(triggered, events[0], node);
      assert events[..|events| - 1] == [] && RespectsScan(triggered, events[0], n, node);
      assert AllRespectScan(triggered, events, n, node);
      assert Run(triggered, events).status.scanningNodeId != Some(node);
    } else {
      SupersededOrOpen(s, Scans, Some(node));
      StepKeepsSuperseded(s, TriggerScan(node), n, Scans, Some(node));
      forall events | AllRespectScan(triggered, events, n, node)
        ensures Run(triggered, events).status.scanningNodeId == Some(node)
      {
        RunKeepsScan(triggered, events, n, node);
      }
    }
  }
}
