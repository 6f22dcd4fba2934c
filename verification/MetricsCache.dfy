/**
 The counter-to-rate cache of the metrics job (scheduler/metrics_job.go) and the totals computed from its
 rates (GetVMNetworkSummary in repository/metrics_repository.go).

 Times are nanoseconds and counters bytes. A rate is the exact quotient, truncated.
 */
module MetricsCache {
  import opened Prelude

  const SECOND: int := 1_000_000_000
  const HOUR: int := 3_600_000_000_000

  type Key = string

  datatype Counters = Counters(netIn: nat, netOut: nat, diskRead: nat, diskWrite: nat)

  datatype Reading = Reading(counters: Counters, readAt: int)

  datatype Rates = Rates(netIn: int, netOut: int, diskRead: int, diskWrite: int, valid: bool)

  const NO_RATES := Rates(0, 0, 0, 0, false)

  datatype Counter = NetIn | NetOut | DiskRead | DiskWrite

  function CounterOf(c: Counters, which: Counter): nat {
    match which case NetIn => c.netIn case NetOut => c.netOut case DiskRead => c.diskRead case DiskWrite => c.diskWrite
  }

  function RateOf(r: Rates, which: Counter): int {
    match which case NetIn => r.netIn case NetOut => r.netOut case DiskRead => r.diskRead case DiskWrite => r.diskWrite
  }

  /** Bytes per second over an interval; a counter that went backwards was reset, and gives 0. */
  function Rate(previous: nat, current: nat, elapsed: int): (r: int)
    requires elapsed > 0
    ensures r >= 0
    ensures current >= previous ==> r * elapsed <= (current - previous) * SECOND < (r + 1) * elapsed
    ensures current < previous ==> r == 0
  {
    if current < previous then 0 else (current - previous) * SECOND / elapsed
  }

  /** The rates between two readings of one key. */
  function RatesBetween(previous: Reading, current: Reading): (r: Rates)
    ensures r.valid <==> current.readAt > previous.readAt
    ensures !r.valid ==> r == NO_RATES
  {
    var elapsed := current.readAt - previous.readAt;
    if elapsed <= 0 then NO_RATES
    else
      Rates(Rate(previous.counters.netIn, current.counters.netIn, elapsed),
            Rate(previous.counters.netOut, current.counters.netOut, elapsed),
            Rate(previous.counters.diskRead, current.counters.diskRead, elapsed),
            Rate(previous.counters.diskWrite, current.counters.diskWrite, elapsed),
            true)
  }

  /** An entry the cleanup leaves alone: its key is active, or it was read within the past hour. */
  predicate Survives(key: Key, reading: Reading, active: set<Key>, now: int) {
    key in active || reading.readAt >= now - HOUR
  }

  class Cache {
    var previous: map<Key, Reading>

    constructor ()
      ensures previous == map[]
    {
      previous := map[];
    }

    method CalculateDelta(key: Key, counters: Counters, now: int) returns (rates: Rates)
      modifies this
      ensures previous == old(previous)[key := Reading(counters, now)]
      ensures rates ==
        if key in old(previous) then RatesBetween(old(previous)[key], Reading(counters, now)) else NO_RATES
    {
      var exists_ := key in previous;
      var prev := if exists_ then previous[key] else Reading(counters, now);
      previous := previous[key := Reading(counters, now)];
      if !exists_ { return NO_RATES; }
      var elapsed := now - prev.readAt;
      if elapsed <= 0 { return NO_RATES; }
      return Rates(Rate(prev.counters.netIn, counters.netIn, elapsed),
                   Rate(prev.counters.netOut, counters.netOut, elapsed),
                   Rate(prev.counters.diskRead, counters.diskRead, elapsed),
                   Rate(prev.counters.diskWrite, counters.diskWrite, elapsed), true);
    }

    method Cleanup(active: set<Key>, now: int)
      modifies this
      ensures previous ==
        map key | key in old(previous) && Survives(key, old(previous)[key], active, now) :: old(previous)[key]
    {
      var cutoff := now - HOUR;
      var remaining := previous.Keys;
      while remaining != {}
        invariant remaining <= previous.Keys <= old(previous.Keys)
        invariant forall key :: key in previous ==> previous[key] == old(previous)[key]
        invariant forall key :: key in old(previous) && key !in remaining ==>
          (key in previous <==> Survives(key, old(previous)[key], active, now))
        decreases remaining
      {
        var key :| key in remaining;
        remaining := remaining - {key};
        if key !in active && previous[key].readAt < cutoff {
          previous := previous - {key};
        }
      }
    }
  }

  // ---------- the job's loop over the VMs of a node ----------

  datatype VM = VM(vmid: nat, running: bool, counters: Counters)

  /** One row of vm_metrics_history. */
  datatype Row = Row(vmid: nat, rates: Rates, recordedAt: int)

  function VMKey(node: string, vmid: nat): Key { node + ":" + Decimal(vmid) }

  /** Different VMs never share a cache key: node IDs are UUIDs, which have no colon. */
  lemma VMKeyInjective(node: string, vmid: nat, node': string, vmid': nat)
    requires ':' !in node && ':' !in node'
    ensures VMKey(node, vmid) == VMKey(node', vmid') ==> node == node' && vmid == vmid'
  {
    var k, k' := VMKey(node, vmid), VMKey(node', vmid');
    DigitValueDecimal(vmid);
    DigitValueDecimal(vmid');
    assert k[|node|] == ':' && k'[|node'|] == ':';
    assert |node| < |node'| ==> k'[|node|] == node'[|node|];
    assert |node'| < |node| ==> k[|node'|] == node[|node'|];
    if k == k' {
      assert node == k[..|node|] && node' == k'[..|node'|];
      assert Decimal(vmid) == k[|node| + 1..] && Decimal(vmid') == k'[|node'| + 1..];
    }
  }

  /** The readings a collection makes, in order. */
  function ReadsOf(node: string, vms: seq<VM>, now: int): seq<Call> {
    if vms == [] then [] else
    var vm := vms[|vms| - 1];
    ReadsOf(node, vms[..|vms| - 1], now)
    + (if vm.running then [Read(VMKey(node, vm.vmid), Reading(vm.counters, now))] else [])
  }

  function ApplyAll(previous: map<Key, Reading>, calls: seq<Call>): map<Key, Reading> {
    if calls == [] then previous
    else Apply(ApplyAll(previous, calls[..|calls| - 1]), calls[|calls| - 1])
  }

  /** One row per running VM, in order, with the rates since the reading the cache held before the collection. */
  function RowsOf(previous: map<Key, Reading>, node: string, vms: seq<VM>, now: int): seq<Row> {
    if vms == [] then [] else
    var vm := vms[|vms| - 1];
    RowsOf(previous, node, vms[..|vms| - 1], now) + (if vm.running then [RowOf(previous, node, vm, now)] else [])
  }

  function KeysOf(node: string, vms: seq<VM>): seq<Key> {
    if vms == [] then [] else
    var vm := vms[|vms| - 1];
    KeysOf(node, vms[..|vms| - 1]) + (if vm.running then [VMKey(node, vm.vmid)] else [])
  }

  function RowOf(previous: map<Key, Reading>, node: string, vm: VM, now: int): Row {
    var key := VMKey(node, vm.vmid);
    Row(vm.vmid,
        if key in previous then RatesBetween(previous[key], Reading(vm.counters, now)) else NO_RATES,
        now)
  }

  ghost predicate DistinctVMs(vms: seq<VM>) {
    forall i, j :: 0 <= i < j < |vms| ==> vms[i].vmid != vms[j].vmid
  }

  /** The collection changes nothing for keys it does not read. */
  ghost predicate OthersKept(before: map<Key, Reading>, after: map<Key, Reading>, node: string, vms: seq<VM>) {
    forall key :: (forall vm :: vm in vms ==> key != VMKey(node, vm.vmid)) ==>
      (key in after <==> key in before) && (key in after ==> after[key] == before[key])
  }

  lemma OneMoreVM(previous: map<Key, Reading>, node: string, vms: seq<VM>, i: nat, now: int)
    requires i < |vms|
    ensures vms[..i + 1] == vms[..i] + [vms[i]]
    ensures ApplyAll(previous, ReadsOf(node, vms[..i + 1], now))
      == var earlier, vm := ApplyAll(previous, ReadsOf(node, vms[..i], now)), vms[i];
         if vm.running then earlier[VMKey(node, vm.vmid) := Reading(vm.counters, now)] else earlier
    ensures RowsOf(previous, node, vms[..i + 1], now)
      == RowsOf(previous, node, vms[..i], now)
         + if vms[i].running then [RowOf(previous, node, vms[i], now)] else []
    ensures KeysOf(node, vms[..i + 1])
      == KeysOf(node, vms[..i]) + if vms[i].running then [VMKey(node, vms[i].vmid)] else []
  {
    assert vms[..i + 1][..i] == vms[..i];
    var made := ReadsOf(node, vms[..i], now);
    var read := Read(VMKey(node, vms[i].vmid), Reading(vms[i].counters, now));
    assert made + [] == made && (made + [read])[..|made|] == made;
  }

  lemma OtherKeys(node: string, vms: seq<VM>, i: nat)
    requires DistinctVMs(vms) && ':' !in node && i < |vms|
    ensures forall vm :: vm in vms[..i] ==> VMKey(node, vms[i].vmid) != VMKey(node, vm.vmid)
  {
    forall vm | vm in vms[..i] ensures VMKey(node, vms[i].vmid) != VMKey(node, vm.vmid) {
      VMKeyInjective(node, vms[i].vmid, node, vm.vmid);
    }
  }

  lemma DistinctPrefix(vms: seq<VM>, i: nat)
    requires DistinctVMs(vms) && i <= |vms|
    ensures DistinctVMs(vms[..i])
  {
  }

  /** What a collection has done after some of the VMs. */
  ghost predicate Collected(before: map<Key, Reading>, after: map<Key, Reading>, node: string, vms: seq<VM>, now: int,
                            keys: seq<Key>, rows: seq<Row>)
  {
    && after == ApplyAll(before, ReadsOf(node, vms, now))
    && (DistinctVMs(vms) && ':' !in node ==> rows == RowsOf(before, node, vms, now))
    && keys == KeysOf(node, vms)
    && OthersKept(before, after, node, vms)
  }

  lemma CollectSkipped(before: map<Key, Reading>, after: map<Key, Reading>, node: string, vms: seq<VM>, i: nat, now: int,
                       keys: seq<Key>, rows: seq<Row>)
    requires i < |vms| && !vms[i].running && Collected(before, after, node, vms[..i], now, keys, rows)
    ensures Collected(before, after, node, vms[..i + 1], now, keys, rows)
  {
    OneMoreVM(before, node, vms, i, now);
  }

  lemma CollectRead(before: map<Key, Reading>, after: map<Key, Reading>, node: string, vms: seq<VM>, i: nat, now: int,
                    keys: seq<Key>, rows: seq<Row>)
    requires i < |vms| && vms[i].running && Collected(before, after, node, vms[..i], now, keys, rows)
    ensures var key, reading := VMKey(node, vms[i].vmid), Reading(vms[i].counters, now);
      var rates := if key in after then RatesBetween(after[key], reading) else NO_RATES;
      Collected(before, after[key := reading], node, vms[..i + 1], now, keys + [key],
                rows + [Row(vms[i].vmid, rates, now)])
  {
    OneMoreVM(before, node, vms, i, now);
    if DistinctVMs(vms[..i + 1]) && ':' !in node { RowRead(before, after, node, vms, i, now); }
    OthersKeptOneMore(before, after, node, vms, i, Reading(vms[i].counters, now));
  }

  /** A VM that differs from those before it finds the reading the cache held before the collection. */
  lemma RowRead(before: map<Key, Reading>, after: map<Key, Reading>, node: string, vms: seq<VM>, i: nat, now: int)
    requires i < |vms| && DistinctVMs(vms[..i + 1]) && ':' !in node && OthersKept(before, after, node, vms[..i])
    ensures DistinctVMs(vms[..i]) && RowOf(before, node, vms[i], now) == RowOf(after, node, vms[i], now)
  {
    DistinctPrefix(vms[..i + 1], i);
    OtherKeys(node, vms[..i + 1], i);
    assert vms[..i + 1][..i] == vms[..i];
    var key := VMKey(node, vms[i].vmid);
    assert (key in after <==> key in before) && (key in after ==> after[key] == before[key]);
  }

  lemma OthersKeptOneMore(before: map<Key, Reading>, after: map<Key, Reading>, node: string, vms: seq<VM>, i: nat,
                          reading: Reading)
    requires i < |vms| && OthersKept(before, after, node, vms[..i])
    ensures OthersKept(before, after[VMKey(node, vms[i].vmid) := reading], node, vms[..i + 1])
  {
    assert vms[i] in vms[..i + 1] && forall vm :: vm in vms[..i] ==> vm in vms[..i + 1];
  }

  method CollectVMMetrics(cache: Cache, node: string, vms: seq<VM>, now: int) returns (keys: seq<Key>, rows: seq<Row>)
    modifies cache
    ensures cache.previous == ApplyAll(old(cache.previous), ReadsOf(node, vms, now))
    ensures DistinctVMs(vms) && ':' !in node ==> rows == RowsOf(old(cache.previous), node, vms, now)
    ensures keys == KeysOf(node, vms)
  {
    keys, rows := [], [];
    ghost var before := cache.previous;
    for i := 0 to |vms|
      invariant Collected(before, cache.previous, node, vms[..i], now, keys, rows)
    {
      var vm := vms[i];
      if vm.running {
        CollectRead(before, cache.previous, node, vms, i, now, keys, rows);
        var vmKey := VMKey(node, vm.vmid);
        keys := keys + [vmKey];
        var rates := cache.CalculateDelta(vmKey, vm.counters, now);
        rows := rows + [Row(vm.vmid, if rates.valid then rates else NO_RATES, now)];
      } else {
        CollectSkipped(before, cache.previous, node, vms, i, now, keys, rows);
      }
    }
    assert vms[..|vms|] == vms;
  }

  // ---------- runs ----------

  datatype Call = Read(key: Key, reading: Reading) | Clean(active: set<Key>, now: int)

  function Apply(previous: map<Key, Reading>, c: Call): map<Key, Reading> {
    match c
    case Read(key, reading) => previous[key := reading]
    case Clean(active, now) =>
      map key | key in previous && Survives(key, previous[key], active, now) :: previous[key]
  }

  /** What a new cache holds after a run of calls. */
  function Run(calls: seq<Call>): map<Key, Reading> { ApplyAll(map[], calls) }

  /** What CalculateDelta returns for a reading after a run of calls. */
  function Result(calls: seq<Call>, key: Key, reading: Reading): Rates {
    var previous := Run(calls);
    if key in previous then RatesBetween(previous[key], reading) else NO_RATES
  }

  /** The last reading of a key in a run that no later cleanup could drop, looking at that key alone. */
  function LastReading(calls: seq<Call>, key: Key): Option<Reading> {
    if calls == [] then None else
    var earlier := LastReading(calls[..|calls| - 1], key);
    match calls[|calls| - 1]
    case Read(k, reading) => if k == key then Some(reading) else earlier
    case Clean(active, now) =>
      if earlier.Some? && !Survives(key, earlier.value, active, now) then None else earlier
  }

  /** A call that can make a difference to a key: a reading of it, or a cleanup. */
  predicate Concerns(c: Call, key: Key) { c.Clean? || c.key == key }

  /** The calls of a run that concern a key. */
  function Restrict(calls: seq<Call>, key: Key): seq<Call> {
    if calls == [] then [] else
    Restrict(calls[..|calls| - 1], key)
    + (if Concerns(calls[|calls| - 1], key) then [calls[|calls| - 1]] else [])
  }

  /**
   Whatever happens to other keys in between, the rates of a reading depend on the key's own previous
   reading alone: they are the rates between the two, unless a cleanup could drop the previous one.
   */
  lemma {:induction false} KeysAreIndependent(calls: seq<Call>, key: Key)
    ensures key in Run(calls) <==> LastReading(calls, key).Some?
    ensures key in Run(calls) ==> Run(calls)[key] == LastReading(calls, key).value
    ensures LastReading(calls, key) == LastReading(Restrict(calls, key), key)
  {
    if calls == [] {
    } else {
      var before, last := calls[..|calls| - 1], calls[|calls| - 1];
      KeysAreIndependent(before, key);
      var kept := Restrict(before, key);
      assert (kept + [last])[..|kept|] == kept;
      assert kept + [] == kept;
    }
  }

  lemma ResultOfOwnReadings(calls: seq<Call>, key: Key, reading: Reading)
    ensures Result(calls, key, reading) == Result(Restrict(calls, key), key, reading)
    ensures Result(calls, key, reading) ==
      match LastReading(calls, key) case None => NO_RATES case Some(r) => RatesBetween(r, reading)
  {
    KeysAreIndependent(calls, key);
    KeysAreIndependent(Restrict(calls, key), key);
  }

  /** No cleanup drops a reading that is at most an hour old, with clocks that do not run ahead of now. */
  lemma {:induction false} ReadWithinHourSurvives(calls: seq<Call>, key: Key, first: Reading, later: seq<Call>, now: int)
    requires now - first.readAt <= HOUR
    requires forall i :: 0 <= i < |later| ==>
      match later[i] case Read(k, _) => k != key case Clean(_, at) => at <= now
    ensures LastReading(calls + [Read(key, first)] + later, key) == Some(first)
  {
    var all := calls + [Read(key, first)] + later;
    if later == [] {
      assert all[|all| - 1] == Read(key, first);
    } else {
      var before := later[..|later| - 1];
      ReadWithinHourSurvives(calls, key, first, before, now);
      assert all[..|all| - 1] == calls + [Read(key, first)] + before;
      assert all[|all| - 1] == later[|later| - 1];
    }
  }

  /** The last reading of a key is held until a cleanup finds the key inactive and the reading over an hour old. */
  lemma {:induction false} ReadingHeldExactly(calls: seq<Call>, key: Key, first: Reading, later: seq<Call>)
    requires forall i :: 0 <= i < |later| && later[i].Read? ==> later[i].key != key
    ensures var all := calls + [Read(key, first)] + later;
      if forall i :: 0 <= i < |later| && later[i].Clean? ==>
           key in later[i].active || later[i].now - first.readAt <= HOUR
      then key in Run(all) && Run(all)[key] == first
      else key !in Run(all)
  {
    var all := calls + [Read(key, first)] + later;
    if later == [] {
      assert all[..|all| - 1] == calls && all[|all| - 1] == Read(key, first);
    } else {
      var n := |later| - 1;
      ReadingHeldExactly(calls, key, first, later[..n]);
      assert all[..|all| - 1] == calls + [Read(key, first)] + later[..n] && all[|all| - 1] == later[n];
    }
  }

  // ---------- conservation, for one counter ----------

  /** One counter's readings: times and values. */
  datatype Sample = Sample(at: int, value: nat)

  ghost predicate Increasing(s: seq<Sample>) {
    forall i :: 0 < i < |s| ==> s[i - 1].at < s[i].at
  }

  ghost predicate NoReset(s: seq<Sample>) {
    forall i :: 0 < i < |s| ==> s[i - 1].value <= s[i].value
  }

  function SampleRate(s: seq<Sample>, i: nat): int
    requires 0 < i < |s|
  {
    if s[i].at <= s[i - 1].at then 0 else Rate(s[i - 1].value, s[i].value, s[i].at - s[i - 1].at)
  }

  /** The sum over all intervals of (rate + extra) * elapsed. */
  function Accounted(s: seq<Sample>, extra: int): int {
    if |s| < 2 then 0
    else
      var n := |s| - 1;
      Accounted(s[..n], extra) + (SampleRate(s, n) + extra) * (s[n].at - s[n - 1].at)
  }

  /** The sum of the counter's increases. */
  function Growth(s: seq<Sample>): nat {
    if |s| < 2 then 0
    else
      var n := |s| - 1;
      Growth(s[..n]) + (if s[n].value > s[n - 1].value then s[n].value - s[n - 1].value else 0)
  }

  /**
   Over any run of readings with increasing times and arbitrary resets, the traffic accounted for by the
   rates is at most what the counter grew by, and falls short of it by less than one byte per second.
   */
  lemma {:induction false} RatesConserve(s: seq<Sample>)
    requires Increasing(s)
    ensures Accounted(s, 0) <= Growth(s) * SECOND
    ensures |s| >= 2 ==> Growth(s) * SECOND < Accounted(s, 1)
    ensures |s| < 2 ==> Growth(s) * SECOND == Accounted(s, 1)
  {
    if |s| < 2 {
    } else {
      var n := |s| - 1;
      RatesConserve(s[..n]);
      var elapsed, r := s[n].at - s[n - 1].at, SampleRate(s, n);
      if s[n].value < s[n - 1].value { assert r == 0; }
      assert (r + 0) * elapsed == r * elapsed;
    }
  }

  lemma {:induction false} GrowthWithoutReset(s: seq<Sample>)
    requires NoReset(s)
    ensures |s| > 0 ==> Growth(s) == s[|s| - 1].value - s[0].value
  {
    if |s| < 2 {
    } else {
      GrowthWithoutReset(s[..|s| - 1]);
    }
  }

  // ---------- the totals of GetVMNetworkSummary ----------

  /** SUM(net_in * 60), or of net_out, over the rows of readings from..to of a run; the first ever is stored as 0. */
  function SumTimes60(s: seq<Sample>, from: nat, to: nat): int
    requires from <= to <= |s|
  {
    if from == to then 0
    else SumTimes60(s, from, to - 1) + (if to == 1 then 0 else SampleRate(s, to - 1)) * 60
  }

  ghost predicate EveryMinute(s: seq<Sample>) {
    forall i :: 0 < i < |s| ==> s[i].at - s[i - 1].at == 60 * SECOND
  }

  /**
   With readings a minute apart and no reset, the total of any window of rows is at most the growth of the
   counter over the window, and short of it by less than 60 bytes per row.
   */
  lemma {:induction false} TotalIsGrowth(s: seq<Sample>, from: nat, to: nat)
    requires EveryMinute(s) && NoReset(s)
    requires 0 < from <= to <= |s|
    ensures SumTimes60(s, from, to) <= s[to - 1].value - s[from - 1].value
    ensures s[to - 1].value - s[from - 1].value <= SumTimes60(s, from, to) + 60 * (to - from)
    ensures from < to ==> s[to - 1].value - s[from - 1].value < SumTimes60(s, from, to) + 60 * (to - from)
  {
    if from == to {
    } else {
      TotalIsGrowth(s, from, to - 1);
      var r := SampleRate(s, to - 1);
      var delta := s[to - 1].value - s[to - 2].value;
      assert r * (60 * SECOND) <= delta * SECOND < (r + 1) * (60 * SECOND);
      assert r * 60 <= delta < r * 60 + 60;
    }
  }

  // ---------- from the calls to the totals ----------

  /** The readings of one of a key's counters in a run of calls. */
  function Samples(calls: seq<Call>, key: Key, which: Counter): seq<Sample> {
    if calls == [] then [] else
    Samples(calls[..|calls| - 1], key, which)
    + match calls[|calls| - 1]
      case Read(k, r) => if k == key then [Sample(r.readAt, CounterOf(r.counters, which))] else []
      case Clean(_, _) => []
  }

  /** The rates of that counter which the run stores for the key. */
  function Stored(calls: seq<Call>, key: Key, which: Counter): seq<int> {
    if calls == [] then [] else
    Stored(calls[..|calls| - 1], key, which)
    + StoredBy(calls[..|calls| - 1], calls[|calls| - 1], key, which)
  }

  /** What the last call of a run stores. */
  function StoredBy(before: seq<Call>, c: Call, key: Key, which: Counter): seq<int> {
    if c.Read? && c.key == key then [RateOf(Result(before, key, c.reading), which)] else []
  }

  /** Every cleanup finds the key active, or comes at most an hour after its last reading. */
  ghost predicate CleanedInTime(calls: seq<Call>, key: Key, which: Counter) {
    calls == [] ||
    var before, s := calls[..|calls| - 1], Samples(calls[..|calls| - 1], key, which);
    CleanedInTime(before, key, which)
    && match calls[|calls| - 1]
       case Read(_, _) => true
       case Clean(active, now) => s != [] ==> key in active || now - s[|s| - 1].at <= HOUR
  }

  function RateAt(s: seq<Sample>, i: nat): int
    requires i < |s|
  {
    if i == 0 then 0 else SampleRate(s, i)
  }

  function Held(previous: map<Key, Reading>, key: Key): Option<Reading> {
    if key in previous then Some(previous[key]) else None
  }

  /** The stored values are the rates between the samples, and the last sample is the reading held. */
  ghost predicate StoredOk(s: seq<Sample>, stored: seq<int>, held: Option<Reading>, which: Counter) {
    && |stored| == |s|
    && (forall i :: 0 <= i < |s| ==> stored[i] == RateAt(s, i))
    && (s == [] <==> held.None?)
    && (held.Some? ==> Sample(held.value.readAt, CounterOf(held.value.counters, which)) == s[|s| - 1])
  }

  lemma StoredByRead(s: seq<Sample>, stored: seq<int>, held: Option<Reading>, r: Reading, which: Counter)
    requires StoredOk(s, stored, held, which)
    ensures StoredOk(s + [Sample(r.readAt, CounterOf(r.counters, which))],
      stored + [if held.None? then 0 else RateOf(RatesBetween(held.value, r), which)], Some(r), which)
  {
    var t := s + [Sample(r.readAt, CounterOf(r.counters, which))];
    assert forall i :: 0 <= i < |s| ==> RateAt(t, i) == RateAt(s, i);
  }

  /** What a run stores for a key are the rates between its successive readings, whatever happens in between. */
  lemma {:induction false} StoredAreRates(which: Counter, calls: seq<Call>, key: Key)
    requires CleanedInTime(calls, key, which)
    ensures StoredOk(Samples(calls, key, which), Stored(calls, key, which), Held(Run(calls), key), which)
  {
    if calls == [] {
    } else {
      var before, c := calls[..|calls| - 1], calls[|calls| - 1];
      StoredAreRates(which, before, key);
      var s, stored := Samples(before, key, which), Stored(before, key, which);
      if c.Read? && c.key == key {
        StoredByRead(s, stored, Held(Run(before), key), c.reading, which);
      } else {
        assert s + [] == s && stored + [] == stored;
      }
    }
  }

  lemma OneMoreCall(which: Counter, calls: seq<Call>, c: Call, key: Key)
    ensures Stored(calls + [c], key, which) == Stored(calls, key, which) + StoredBy(calls, c, key, which)
    ensures Run(calls + [c]) == Apply(Run(calls), c)
  {
    assert (calls + [c])[..|calls + [c]| - 1] == calls;
  }

  /** The readings of a collection are those of the VMs before the last, and the last one's. */
  lemma LastVM(calls: seq<Call>, node: string, vms: seq<VM>, now: int)
    requires vms != []
    ensures var vm, made := vms[|vms| - 1], calls + ReadsOf(node, vms[..|vms| - 1], now);
      calls + ReadsOf(node, vms, now)
      == if vm.running then made + [Read(VMKey(node, vm.vmid), Reading(vm.counters, now))] else made
  {
  }

  lemma {:induction false} NotRead(which: Counter, calls: seq<Call>, node: string, vms: seq<VM>, now: int, key: Key)
    requires forall vm :: vm in vms ==> key != VMKey(node, vm.vmid)
    ensures var all := calls + ReadsOf(node, vms, now);
      && Stored(all, key, which) == Stored(calls, key, which)
      && (key in Run(all) <==> key in Run(calls)) && (key in Run(calls) ==> Run(all)[key] == Run(calls)[key])
  {
    if vms == [] {
      assert calls + [] == calls;
    } else {
      var vm, made := vms[|vms| - 1], calls + ReadsOf(node, vms[..|vms| - 1], now);
      NotRead(which, calls, node, vms[..|vms| - 1], now, key);
      LastVM(calls, node, vms, now);
      OneMoreCall(which, made, Read(VMKey(node, vm.vmid), Reading(vm.counters, now)), key);
    }
  }

  /** A collection stores for a running VM one more value: the one that the VM's row carries. */
  lemma {:induction false} CollectionStores(which: Counter, calls: seq<Call>, node: string, vms: seq<VM>, now: int,
                                            i: nat, key: Key)
    requires DistinctVMs(vms) && ':' !in node && i < |vms| && vms[i].running && key == VMKey(node, vms[i].vmid)
    ensures Stored(calls + ReadsOf(node, vms, now), key, which)
      == Stored(calls, key, which) + [RateOf(RowOf(Run(calls), node, vms[i], now).rates, which)]
    decreases |vms|
  {
    var n := |vms| - 1;
    LastVM(calls, node, vms, now);
    if i == n {
      LastVMStores(which, calls, calls + ReadsOf(node, vms[..n], now), node, vms, now);
    } else {
      CollectionStores(which, calls, node, vms[..n], now, i, key);
      VMKeyInjective(node, vms[i].vmid, node, vms[n].vmid);
      OtherVMStores(which, calls + ReadsOf(node, vms[..n], now), VMKey(node, vms[n].vmid),
                    Reading(vms[n].counters, now), key);
    }
  }

  lemma OtherVMStores(which: Counter, made: seq<Call>, other: Key, reading: Reading, key: Key)
    requires other != key
    ensures Stored(made + [Read(other, reading)], key, which) == Stored(made, key, which)
  {
    OneMoreCall(which, made, Read(other, reading), key);
    assert Stored(made, key, which) + [] == Stored(made, key, which);
  }

  lemma LastVMStores(which: Counter, calls: seq<Call>, made: seq<Call>, node: string, vms: seq<VM>, now: int)
    requires DistinctVMs(vms) && ':' !in node && vms != []
    requires made == calls + ReadsOf(node, vms[..|vms| - 1], now)
    ensures var vm := vms[|vms| - 1];
      var key, reading := VMKey(node, vm.vmid), Reading(vm.counters, now);
      Stored(made + [Read(key, reading)], key, which)
      == Stored(calls, key, which) + [RateOf(RowOf(Run(calls), node, vm, now).rates, which)]
  {
    var n := |vms| - 1;
    var key, reading := VMKey(node, vms[n].vmid), Reading(vms[n].counters, now);
    OtherKeys(node, vms, n);
    NotRead(which, calls, node, vms[..n], now, key);
    OneMoreCall(which, made, Read(key, reading), key);
    StoredRate(calls, made, key, reading);
  }

  lemma StoredRate(calls: seq<Call>, made: seq<Call>, key: Key, reading: Reading)
    requires key in Run(made) <==> key in Run(calls)
    requires key in Run(calls) ==> Run(made)[key] == Run(calls)[key]
    ensures Result(made, key, reading) == Result(calls, key, reading)
  {
  }

  /** SUM(net_in * 60), or of net_out. */
  function Total(stored: seq<int>): int {
    if stored == [] then 0 else Total(stored[..|stored| - 1]) + stored[|stored| - 1] * 60
  }

  lemma {:induction false} TotalIsSum(s: seq<Sample>, stored: seq<int>, from: nat, to: nat)
    requires |stored| == |s| && forall i :: 0 <= i < |s| ==> stored[i] == RateAt(s, i)
    requires from <= to <= |s|
    ensures Total(stored[from..to]) == SumTimes60(s, from, to)
  {
    if from == to {
    } else {
      TotalIsSum(s, stored, from, to - 1);
      assert stored[from..to][..to - 1 - from] == stored[from..to - 1];
    }
  }

  /**
   In every run of readings and cleanups of all keys: the total over any window of rows stored for a key is at
   most the growth of its counter, and short of it by less than 60 bytes per row - if the key is read every
   minute, its counter is not reset, and each cleanup finds it active or read within the past hour.
   */
  lemma TotalOfRun(which: Counter, calls: seq<Call>, key: Key, from: nat, to: nat)
    requires CleanedInTime(calls, key, which) && EveryMinute(Samples(calls, key, which))
    requires NoReset(Samples(calls, key, which))
    requires 0 < from < to <= |Samples(calls, key, which)|
    ensures |Stored(calls, key, which)| == |Samples(calls, key, which)|
    ensures var s, total := Samples(calls, key, which), Total(Stored(calls, key, which)[from..to]);
      total <= s[to - 1].value - s[from - 1].value < total + 60 * (to - from)
  {
    StoredAreRates(which, calls, key);
    TotalIsSum(Samples(calls, key, which), Stored(calls, key, which), from, to);
    TotalIsGrowth(Samples(calls, key, which), from, to);
  }

  lemma LongRowsNeverOvercount(elapsed: int, a: nat, b: nat)
    requires elapsed >= 60 * SECOND && a <= b
    ensures Rate(a, b, elapsed) * 60 <= b - a
  {
    var r := Rate(a, b, elapsed);
    assert r * (60 * SECOND) <= r * elapsed;
  }

  /** As many bytes as the interval has nanoseconds give a rate of one gigabyte per second. */
  lemma GigabyteRate(elapsed: int)
    requires elapsed > 0
    ensures Rate(0, elapsed, elapsed) == SECOND
  {
    QuotientIs(Rate(0, elapsed, elapsed), SECOND, elapsed);
  }

  lemma QuotientIs(r: int, x: int, e: int)
    requires e > 0 && r * e <= x * e < (r + 1) * e
    ensures r == x
  {
    if r < x {
      TimesMonotone(r + 1, x, e);
    } else {
      TimesMonotone(x, r, e);
      if r > x { TimesMonotone(x + 1, r, e); }
    }
  }

  /**
   A row never counts for more than its interval brought in exactly when the interval lasted a minute or
   longer: in every shorter interval some counter makes it count for more.
   */
  lemma RowOvercounts(elapsed: int)
    requires elapsed > 0
    ensures (forall a: nat, b: nat :: a <= b ==> Rate(a, b, elapsed) * 60 <= b - a) <==> elapsed >= 60 * SECOND
  {
    if elapsed >= 60 * SECOND {
      forall a: nat, b: nat | a <= b ensures Rate(a, b, elapsed) * 60 <= b - a {
        LongRowsNeverOvercount(elapsed, a, b);
      }
    } else {
      GigabyteRate(elapsed);
      assert Rate(0, elapsed, elapsed) * 60 > elapsed - 0;
    }
  }
}
