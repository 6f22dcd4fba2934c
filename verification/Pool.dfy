/**
 The SSH connection pool (ssh/pool.go): one cached client per node, least recently used entries evicted.

 Clients are identified by numbers; `closed` collects the clients the pool has called Close on. Clock
 readings, keepalive answers and dial results are parameters.
 */
module Pool {
  import opened Prelude

  type NodeId = string
  type ClientId = nat

  datatype Entry = Entry(client: ClientId, lastUsed: int)

  // ---------- the specification: a list of node IDs, most recently used first ----------

  function Without(l: seq<NodeId>, id: NodeId): (r: seq<NodeId>)
    ensures forall x :: x in r <==> x in l && x != id
  {
    if l == [] then [] else
    var rest := Without(l[1..], id);
    if l[0] == id then rest else [l[0]] + rest
  }

  function Touch(l: seq<NodeId>, id: NodeId): seq<NodeId> {
    [id] + Without(l, id)
  }

  function Take(l: seq<NodeId>, max: int): seq<NodeId>
    requires max >= 0
  {
    if |l| <= max then l else l[..max]
  }

  ghost predicate Newer(connections: map<NodeId, Entry>, a: NodeId, b: NodeId) {
    a in connections && b in connections && connections[a].lastUsed > connections[b].lastUsed
  }

  ghost predicate NewestFirst(connections: map<NodeId, Entry>, l: seq<NodeId>) {
    l == [] || ((forall x :: x in l[1..] ==> Newer(connections, l[0], x)) && NewestFirst(connections, l[1..]))
  }

  /** l lists exactly the cached nodes, from the most to the least recently used. */
  ghost predicate Represents(connections: map<NodeId, Entry>, l: seq<NodeId>) {
    (forall id :: id in l <==> id in connections) && NewestFirst(connections, l)
  }

  function Clients(connections: map<NodeId, Entry>, ids: set<NodeId>): set<ClientId>
    requires ids <= connections.Keys
  {
    set id | id in ids :: connections[id].client
  }

  /** Part of the entries is left, as many as fit, and none of them is older than one that is gone. */
  ghost predicate EvictedTo(before: map<NodeId, Entry>, after: map<NodeId, Entry>, max: int) {
    && after.Keys <= before.Keys
    && (forall id :: id in after ==> after[id] == before[id])
    && |after| == (if |before| <= max then |before| else max)
    && forall kept, gone :: kept in after && gone in before && gone !in after
         ==> before[gone].lastUsed <= before[kept].lastUsed
  }

  function Elements(l: seq<NodeId>): set<NodeId> {
    set x | x in l
  }

  lemma {:induction false} NewestFirstSize(connections: map<NodeId, Entry>, l: seq<NodeId>)
    requires NewestFirst(connections, l)
    ensures |Elements(l)| == |l|
  {
    if l == [] {
    } else {
      NewestFirstSize(connections, l[1..]);
      assert l == [l[0]] + l[1..];
      assert Elements(l) == {l[0]} + Elements(l[1..]);
      assert l[0] !in l[1..];
    }
  }

  lemma {:induction false} NewestFirstSplit(connections: map<NodeId, Entry>, l: seq<NodeId>, n: nat)
    requires NewestFirst(connections, l) && n <= |l|
    ensures NewestFirst(connections, l[..n])
    ensures forall x, y :: x in l[..n] && y in l[n..] ==> Newer(connections, x, y)
  {
    if n == 0 {
    } else {
      NewestFirstSplit(connections, l[1..], n - 1);
      assert l[..n] == [l[0]] + l[1..][..n - 1] && l[..n][1..] == l[1..][..n - 1];
      assert l[n..] == l[1..][n - 1..];
      assert forall y :: y in l[n..] ==> y in l[1..];
      assert forall x :: x in l[1..][..n - 1] ==> x in l[1..];
    }
  }

  lemma {:induction false} NewestFirstAgrees(a: map<NodeId, Entry>, b: map<NodeId, Entry>, l: seq<NodeId>)
    requires NewestFirst(a, l) && forall x :: x in l ==> x in a && x in b && a[x] == b[x]
    ensures NewestFirst(b, l)
  {
    if l == [] {
    } else {
      assert forall x :: x in l[1..] ==> x in l && Newer(a, l[0], x);
      NewestFirstAgrees(a, b, l[1..]);
    }
  }

  lemma {:induction false} NewestFirstWithout(connections: map<NodeId, Entry>, l: seq<NodeId>, id: NodeId)
    requires NewestFirst(connections, l)
    ensures NewestFirst(connections, Without(l, id))
  {
    if l == [] {
    } else {
      NewestFirstWithout(connections, l[1..], id);
      assert ([l[0]] + Without(l[1..], id))[1..] == Without(l[1..], id);
    }
  }

  /** Two sets of the same size, one of which has an element the other has not, differ the other way too. */
  lemma Exchange<T>(a: set<T>, b: set<T>, x: T) returns (y: T)
    requires |a| == |b| && x in a && x !in b
    ensures y in b && y !in a
  {
    if b <= a {
      SubsetSize(b, a);
      assert false;
    }
    y :| y in b && y !in a;
  }

  lemma KeptIsNewer(connections: map<NodeId, Entry>, l: seq<NodeId>, n: nat, early: NodeId, late: NodeId)
    requires NewestFirst(connections, l) && n <= |l|
    requires early in l[..n] && late in l && late !in l[..n]
    ensures Newer(connections, early, late)
  {
    NewestFirstSplit(connections, l, n);
    assert l == l[..n] + l[n..];
  }

  /** Eviction keeps exactly the most recently used entries: a prefix of the recency list. */
  lemma EvictionKeepsPrefix(before: map<NodeId, Entry>, l: seq<NodeId>, after: map<NodeId, Entry>, max: int)
    requires max >= 0 && Represents(before, l) && EvictedTo(before, after, max)
    ensures Represents(after, Take(l, max))
  {
    var kept := Take(l, max);
    NewestFirstSplit(before, l, |kept|);
    assert l[..|kept|] == kept;
    NewestFirstSize(before, l);
    NewestFirstSize(before, kept);
    assert Elements(l) == before.Keys;
    assert |Elements(kept)| == |after.Keys|;
    assert l == kept + l[|kept|..];
    forall late | late in after.Keys ensures late in Elements(kept) {
      if late !in Elements(kept) {
        var early := Exchange(after.Keys, Elements(kept), late);
        KeptIsNewer(before, l, |kept|, early, late);
        assert false;
      }
    }
    SubsetSize(after.Keys, Elements(kept));
    NewestFirstAgrees(before, after, kept);
  }

  lemma DroppedList(connections: map<NodeId, Entry>, l: seq<NodeId>, id: NodeId)
    requires Represents(connections, l)
    ensures Represents(connections - {id}, Without(l, id))
  {
    NewestFirstWithout(connections, l, id);
    NewestFirstAgrees(connections, connections - {id}, Without(l, id));
  }

  lemma TouchedList(connections: map<NodeId, Entry>, l: seq<NodeId>, id: NodeId, entry: Entry)
    requires Represents(connections, l)
    requires forall x :: x in connections ==> connections[x].lastUsed < entry.lastUsed
    ensures Represents(connections[id := entry], Touch(l, id))
  {
    var touched := connections[id := entry];
    NewestFirstWithout(connections, l, id);
    NewestFirstAgrees(connections, touched, Without(l, id));
    assert Touch(l, id)[1..] == Without(l, id);
    assert forall x :: x in Without(l, id) ==> Newer(touched, id, x);
  }

  // ---------- one call, as a relation between the pool before and after ----------

  datatype State = State(connections: map<NodeId, Entry>, closed: set<ClientId>)

  /** The cached entry can be used again: not idle for too long, and it answers a keepalive. */
  predicate Usable(s: State, nodeID: NodeId, now: int, idleTimeout: int, alive: bool) {
    nodeID in s.connections && now - s.connections[nodeID].lastUsed <= idleTimeout && alive
  }

  /** Stores an entry and evicts what no longer fits; evicted clients are closed. */
  ghost predicate StoredTo(s: State, s': State, nodeID: NodeId, entry: Entry, max: int) {
    var stored := s.connections[nodeID := entry];
    && EvictedTo(stored, s'.connections, max)
    && s'.closed == s.closed + Clients(stored, stored.Keys - s'.connections.Keys)
  }

  function Discard(s: State, nodeID: NodeId): State {
    if nodeID in s.connections then
      State(s.connections - {nodeID}, s.closed + {s.connections[nodeID].client})
    else s
  }

  ghost predicate GetTo(s: State, s': State, nodeID: NodeId, usable: bool, dial: Option<ClientId>,
                        stamp: int, max: int, client: Option<ClientId>)
    requires usable ==> nodeID in s.connections
  {
    if usable then
      var c := s.connections[nodeID].client;
      client == Some(c) && s' == s.(connections := s.connections[nodeID := Entry(c, stamp)])
    else if dial.None? then
      client == None && s' == Discard(s, nodeID)
    else
      client == dial && StoredTo(Discard(s, nodeID), s', nodeID, Entry(dial.value, stamp), max)
  }

  ghost predicate ReturnTo(s: State, s': State, nodeID: NodeId, client: Option<ClientId>, alive: bool,
                           stamp: int, max: int)
  {
    if client.None? then s' == s
    else if !alive then s' == State(s.connections - {nodeID}, s.closed + {client.value})
    else StoredTo(s, s', nodeID, Entry(client.value, stamp), max)
  }

  /** What holds between calls, whoever returns what. */
  ghost predicate Sized(s: State, clock: int, max: int) {
    && |s.connections| <= max && "" !in s.connections
    && forall id :: id in s.connections ==> s.connections[id].lastUsed <= clock
  }

  /** Every pooled client is open and under the node it was created for, which owner has. */
  ghost predicate Filed(s: State, owner: map<ClientId, NodeId>) {
    && (forall id :: id in s.connections ==>
        var c := s.connections[id].client; c in owner && owner[c] == id && c !in s.closed)
    && s.closed <= owner.Keys
  }

  ghost predicate Sound(s: State, owner: map<ClientId, NodeId>, clock: int, max: int) {
    Sized(s, clock, max) && Filed(s, owner)
  }

  ghost predicate Pooled(s: State, c: ClientId) {
    exists id :: id in s.connections && s.connections[id].client == c
  }

  /** Get moves its node to the front of the list and cuts the list to size, or takes the node off it. */
  lemma GetRefinesList(s: State, s': State, nodeID: NodeId, usable: bool, dial: Option<ClientId>,
                       stamp: int, max: int, client: Option<ClientId>,
                       owner: map<ClientId, NodeId>, clock: int, l: seq<NodeId>)
    requires usable ==> nodeID in s.connections
    requires Sound(s, owner, clock, max) && clock < stamp && max >= 1
    requires GetTo(s, s', nodeID, usable, dial, stamp, max, client)
    requires Represents(s.connections, l)
    ensures Represents(s'.connections, if client.Some? then Take(Touch(l, nodeID), max) else Without(l, nodeID))
    ensures client.Some? ==> nodeID in s'.connections && s'.connections[nodeID] == Entry(client.value, stamp)
  {
    if usable {
      ReusedList(s.connections, nodeID, stamp, max, l);
    } else if dial.Some? {
      DialedList(s, s', nodeID, Entry(dial.value, stamp), max, l);
    } else {
      DroppedList(s.connections, l, nodeID);
      assert Discard(s, nodeID).connections == s.connections - {nodeID};
    }
  }

  lemma DialedList(s: State, s': State, nodeID: NodeId, entry: Entry, max: int, l: seq<NodeId>)
    requires max >= 1 && Represents(s.connections, l) && StoredTo(Discard(s, nodeID), s', nodeID, entry, max)
    requires forall x :: x in s.connections ==> s.connections[x].lastUsed < entry.lastUsed
    ensures Represents(s'.connections, Take(Touch(l, nodeID), max))
    ensures nodeID in s'.connections && s'.connections[nodeID] == entry
  {
    assert Discard(s, nodeID).connections[nodeID := entry] == s.connections[nodeID := entry];
    StoredList(s.connections, s'.connections, nodeID, entry, max, l);
  }

  lemma ReusedList(before: map<NodeId, Entry>, nodeID: NodeId, stamp: int, max: int, l: seq<NodeId>)
    requires nodeID in before && Represents(before, l) && |before| <= max
    requires forall x :: x in before ==> before[x].lastUsed < stamp
    ensures Represents(before[nodeID := Entry(before[nodeID].client, stamp)], Take(Touch(l, nodeID), max))
  {
    var entry := Entry(before[nodeID].client, stamp);
    var after := before[nodeID := entry];
    TouchedList(before, l, nodeID, entry);
    ListSize(after, Touch(l, nodeID));
    assert after.Keys == before.Keys;
  }

  lemma StoredList(before: map<NodeId, Entry>, after: map<NodeId, Entry>, nodeID: NodeId, entry: Entry,
                   max: int, l: seq<NodeId>)
    requires max >= 1 && Represents(before, l) && EvictedTo(before[nodeID := entry], after, max)
    requires forall x :: x in before ==> before[x].lastUsed < entry.lastUsed
    ensures Represents(after, Take(Touch(l, nodeID), max))
    ensures nodeID in after && after[nodeID] == entry
  {
    TouchedList(before, l, nodeID, entry);
    EvictionKeepsPrefix(before[nodeID := entry], Touch(l, nodeID), after, max);
    assert Take(Touch(l, nodeID), max)[0] == nodeID;
  }

  lemma ListSize(connections: map<NodeId, Entry>, l: seq<NodeId>)
    requires Represents(connections, l)
    ensures |l| == |connections|
  {
    NewestFirstSize(connections, l);
    assert Elements(l) == connections.Keys;
  }

  lemma ReturnRefinesList(s: State, s': State, nodeID: NodeId, client: Option<ClientId>, alive: bool,
                          stamp: int, max: int, owner: map<ClientId, NodeId>, clock: int, l: seq<NodeId>)
    requires Sound(s, owner, clock, max) && clock < stamp && max >= 1
    requires ReturnTo(s, s', nodeID, client, alive, stamp, max)
    requires Represents(s.connections, l)
    ensures Represents(s'.connections,
      if client.None? then l
      else if alive then Take(Touch(l, nodeID), max)
      else Without(l, nodeID))
    ensures client.Some? && alive ==>
      nodeID in s'.connections && s'.connections[nodeID] == Entry(client.value, stamp)
  {
    if client.Some? {
      if alive {
        StoredList(s.connections, s'.connections, nodeID, Entry(client.value, stamp), max, l);
      } else {
        DroppedList(s.connections, l, nodeID);
      }
    }
  }

  /** Storing an entry as the newest one keeps the pool sound and never evicts that entry. */
  lemma StoredIsSound(s: State, s': State, nodeID: NodeId, entry: Entry,
                      owner: map<ClientId, NodeId>, clock: int, max: int)
    requires Sound(s, owner, clock, max) && max >= 1 && nodeID != ""
    requires StoredTo(s, s', nodeID, entry, max)
    requires entry.client in owner && owner[entry.client] == nodeID && entry.client !in s.closed
    requires clock < entry.lastUsed
    ensures Sound(s', owner, entry.lastUsed, max)
    ensures nodeID in s'.connections && s'.connections[nodeID] == entry
  {
    StoredIsKept(s, s', nodeID, entry, clock, max);
  }

  lemma StoredIsSized(s: State, s': State, nodeID: NodeId, entry: Entry, clock: int, max: int)
    requires Sized(s, clock, max) && max >= 1 && nodeID != "" && clock < entry.lastUsed
    requires StoredTo(s, s', nodeID, entry, max)
    ensures Sized(s', entry.lastUsed, max)
  {
  }

  lemma DroppedIsSized(s: State, closed: set<ClientId>, nodeID: NodeId, clock: int, max: int)
    requires Sized(s, clock, max)
    ensures Sized(State(s.connections - {nodeID}, closed), clock, max)
  {
    SubsetSize((s.connections - {nodeID}).Keys, s.connections.Keys);
  }

  lemma GetIsSized(s: State, s': State, nodeID: NodeId, usable: bool, dial: Option<ClientId>,
                   stamp: int, max: int, client: Option<ClientId>, clock: int)
    requires usable ==> nodeID in s.connections
    requires Sized(s, clock, max) && clock < stamp && max >= 1 && nodeID != ""
    requires GetTo(s, s', nodeID, usable, dial, stamp, max, client)
    ensures Sized(s', stamp, max)
  {
    if usable {
      assert s'.connections.Keys == s.connections.Keys;
    } else {
      DroppedIsSized(s, Discard(s, nodeID).closed, nodeID, clock, max);
      assert Discard(s, nodeID).connections == s.connections - {nodeID};
      if dial.Some? {
        StoredIsSized(Discard(s, nodeID), s', nodeID, Entry(dial.value, stamp), clock, max);
      }
    }
  }

  /** What a Get makes of a sound pool is sound, and the client it returns is open and the node's own. */
  lemma GetIsSound(s: State, s': State, nodeID: NodeId, usable: bool, dial: Option<ClientId>,
                   stamp: int, max: int, client: Option<ClientId>,
                   owner: map<ClientId, NodeId>, clock: int, owner': map<ClientId, NodeId>)
    requires usable ==> nodeID in s.connections
    requires Sound(s, owner, clock, max) && clock < stamp && max >= 1 && nodeID != ""
    requires dial.Some? ==> dial.value !in owner
    requires owner' == if usable || dial.None? then owner else owner[dial.value := nodeID]
    requires GetTo(s, s', nodeID, usable, dial, stamp, max, client)
    ensures Sound(s', owner', stamp, max)
    ensures client.Some? ==>
      && nodeID in s'.connections && s'.connections[nodeID] == Entry(client.value, stamp)
      && client.value !in s'.closed && client.value in owner' && owner'[client.value] == nodeID
  {
    if usable {
      assert s'.connections.Keys == s.connections.Keys;
    } else {
      DiscardIsSound(s, nodeID, owner, clock, max);
      if dial.Some? {
        StoredIsSound(Discard(s, nodeID), s', nodeID, Entry(dial.value, stamp), owner', clock, max);
      }
    }
  }

  lemma GetKeeps(s: State, s': State, nodeID: NodeId, usable: bool, dial: Option<ClientId>,
                 stamp: int, max: int, client: Option<ClientId>,
                 owner: map<ClientId, NodeId>, clock: int, owner': map<ClientId, NodeId>)
    requires usable ==> nodeID in s.connections
    requires Sized(s, clock, max) && clock < stamp && max >= 1 && nodeID != ""
    requires dial.Some? ==> dial.value !in owner
    requires owner' == if usable || dial.None? then owner else owner[dial.value := nodeID]
    requires GetTo(s, s', nodeID, usable, dial, stamp, max, client)
    ensures Sized(s', stamp, max)
    ensures Filed(s, owner) ==> Filed(s', owner') && (client.Some? ==> client.value !in s'.closed)
    ensures client.Some? ==> nodeID in s'.connections && s'.connections[nodeID] == Entry(client.value, stamp)
  {
    GetIsSized(s, s', nodeID, usable, dial, stamp, max, client, clock);
    if Filed(s, owner) {
      GetIsSound(s, s', nodeID, usable, dial, stamp, max, client, owner, clock, owner');
    }
    if !usable && dial.Some? {
      StoredIsKept(Discard(s, nodeID), s', nodeID, Entry(dial.value, stamp), clock, max);
    }
  }

  /** The entry stored last is the newest, and never evicted. */
  lemma StoredIsKept(s: State, s': State, nodeID: NodeId, entry: Entry, clock: int, max: int)
    requires StoredTo(s, s', nodeID, entry, max) && max >= 1
    requires forall id :: id in s.connections ==> s.connections[id].lastUsed <= clock < entry.lastUsed
    ensures nodeID in s'.connections && s'.connections[nodeID] == entry
  {
    var stored := s.connections[nodeID := entry];
    assert |stored.Keys| >= 1 && |s'.connections.Keys| >= 1;
    var kept :| kept in s'.connections.Keys;
    assert kept != nodeID ==> stored[kept].lastUsed < stored[nodeID].lastUsed;
  }

  lemma ReturnKeeps(s: State, s': State, nodeID: NodeId, c: ClientId, alive: bool, stamp: int, max: int,
                    owner: map<ClientId, NodeId>, clock: int)
    requires Sized(s, clock, max) && clock < stamp && max >= 1 && nodeID != ""
    requires ReturnTo(s, s', nodeID, Some(c), alive, stamp, max)
    ensures Sized(s', stamp, max)
    ensures Filed(s, owner) && c in owner && owner[c] == nodeID && (alive ==> c !in s.closed) ==> Filed(s', owner)
  {
    if alive {
      StoredIsSized(s, s', nodeID, Entry(c, stamp), clock, max);
      if Filed(s, owner) && c in owner && owner[c] == nodeID && c !in s.closed {
        StoredIsSound(s, s', nodeID, Entry(c, stamp), owner, clock, max);
      }
    } else {
      DroppedIsSized(s, s'.closed, nodeID, clock, max);
      if Filed(s, owner) && c in owner && owner[c] == nodeID {
        DroppedIsSound(s, nodeID, c, owner, clock, max);
      }
    }
  }

  /** Storing an entry closes exactly the clients evicted for it. */
  lemma StoredClosesEvicted(s: State, s': State, nodeID: NodeId, entry: Entry, max: int, id: NodeId)
    requires StoredTo(s, s', nodeID, entry, max) && id in s.connections && id != nodeID
    ensures id in s'.connections ==> s'.connections[id] == s.connections[id]
    ensures id !in s'.connections ==> s.connections[id].client in s'.closed
  {
    var stored := s.connections[nodeID := entry];
    if id !in s'.connections { assert id in stored.Keys - s'.connections.Keys; }
  }

  /** Whatever leaves the pool in a Get has been closed. */
  lemma GetClosesWhatLeaves(s: State, s': State, nodeID: NodeId, usable: bool, dial: Option<ClientId>,
                            stamp: int, max: int, client: Option<ClientId>, c: ClientId)
    requires usable ==> nodeID in s.connections
    requires GetTo(s, s', nodeID, usable, dial, stamp, max, client)
    requires Pooled(s, c)
    ensures Pooled(s', c) || c in s'.closed
  {
    var id :| id in s.connections && s.connections[id].client == c;
    if usable {
      assert s'.connections[id].client == c;
    } else if dial.None? {
      if id != nodeID { assert s'.connections[id].client == c; }
    } else if id != nodeID {
      StoredClosesEvicted(Discard(s, nodeID), s', nodeID, Entry(dial.value, stamp), max, id);
    }
  }

  /**
   A pooled client leaves the pool in a Return without being closed exactly when it is the one cached for
   the node and another client of that node is returned, alive or not.
   */
  lemma ReturnMayDropOpenClient(s: State, s': State, nodeID: NodeId, client: Option<ClientId>, alive: bool,
                                stamp: int, max: int, owner: map<ClientId, NodeId>, clock: int, c: ClientId)
    requires Sound(s, owner, clock, max) && clock < stamp && max >= 1 && nodeID != ""
    requires client.Some? ==> client.value in owner && owner[client.value] == nodeID
    requires client.Some? && alive ==> client.value !in s.closed
    requires ReturnTo(s, s', nodeID, client, alive, stamp, max)
    requires Pooled(s, c)
    ensures !Pooled(s', c) && c !in s'.closed <==>
      client.Some? && nodeID in s.connections && c == s.connections[nodeID].client && c != client.value
  {
    var id :| id in s.connections && s.connections[id].client == c;
    if client.None? {
    } else if !alive {
      if id != nodeID { assert s'.connections[id].client == c; }
    } else {
      var entry := Entry(client.value, stamp);
      var stored := s.connections[nodeID := entry];
      StoredIsSound(s, s', nodeID, entry, owner, clock, max);
      if id != nodeID { StoredClosesEvicted(s, s', nodeID, entry, max, id); }
      assert forall x :: x in Clients(stored, stored.Keys - s'.connections.Keys) ==> owner[x] != nodeID;
    }
  }

  // ---------- the pool ----------

  class Pool {
    var connections: map<NodeId, Entry>
    var closed: set<ClientId>
    const maxConnections: int
    const idleTimeout: int
    /** The node each client was created for, and the latest clock reading stored. */
    ghost var owner: map<ClientId, NodeId>
    ghost var clock: int

    ghost function Abstract(): State
      reads this
    {
      State(connections, closed)
    }

    ghost predicate Valid()
      reads this
    {
      maxConnections >= 1 && Sized(Abstract(), clock, maxConnections)
    }

    ghost predicate AllFiled()
      reads this
    {
      Filed(Abstract(), owner)
    }

    /** A zero in the configuration stands for the default. */
    constructor (maxConnections: int, idleTimeout: int)
      requires maxConnections >= 0
      ensures Valid() && AllFiled() && connections == map[] && closed == {} && owner == map[] && clock == 0
      ensures this.maxConnections == (if maxConnections == 0 then 10 else maxConnections)
      ensures this.idleTimeout == (if idleTimeout == 0 then 300_000_000_000 else idleTimeout)
    {
      this.maxConnections := if maxConnections == 0 then 10 else maxConnections;
      this.idleTimeout := if idleTimeout == 0 then 300_000_000_000 else idleTimeout;
      connections, closed, owner, clock := map[], {}, map[], 0;
    }

    method Get(nodeID: NodeId, now: int, alive: bool, dial: Option<ClientId>, stamp: int)
      returns (client: Option<ClientId>)
      requires Valid() && nodeID != "" && clock <= now <= stamp && clock < stamp
      requires dial.Some? ==> dial.value !in owner
      modifies this
      ensures Valid() && clock == stamp
      ensures var usable := old(Usable(Abstract(), nodeID, now, idleTimeout, alive));
        && GetTo(old(Abstract()), Abstract(), nodeID, usable, dial, stamp, maxConnections, client)
        && owner == (if usable || dial.None? then old(owner) else old(owner)[dial.value := nodeID])
      ensures old(AllFiled()) ==> AllFiled() && (client.Some? ==> client.value !in closed)
      ensures client.Some? ==> nodeID in connections && connections[nodeID] == Entry(client.value, stamp)
      // the cached client is returned, without a dial, exactly when it is recent and alive; else it is closed
      ensures var recent := nodeID in old(connections) && now - old(connections)[nodeID].lastUsed <= idleTimeout && alive;
        && (recent ==> client == Some(old(connections)[nodeID].client) && owner == old(owner) && closed == old(closed))
        && (!recent ==> client == dial && (dial.Some? ==> owner == old(owner)[dial.value := nodeID]))
        && (!recent && nodeID in old(connections) ==> old(connections)[nodeID].client in closed)
    {
      ghost var was, ownerWas, clockWas := Abstract(), owner, clock;
      assert Sized(was, clockWas, maxConnections);
      clock := stamp;
      if nodeID in connections {
        var entry := connections[nodeID];
        if now - entry.lastUsed > idleTimeout {
          CloseEntry(nodeID);
        } else if !alive {
          CloseEntry(nodeID);
        } else {
          connections := connections[nodeID := Entry(entry.client, stamp)];
          client := Some(entry.client);
          GetKeeps(was, Abstract(), nodeID, true, dial, stamp, maxConnections, client, ownerWas, clockWas, owner);
          return;
        }
      }
      ghost var kept := Abstract();
      assert kept == Discard(was, nodeID);
      client := dial;
      if dial.Some? {
        owner := owner[dial.value := nodeID];
        connections := connections[nodeID := Entry(dial.value, stamp)];
        EvictLRU();
        assert StoredTo(kept, Abstract(), nodeID, Entry(dial.value, stamp), maxConnections);
      }
      assert GetTo(was, Abstract(), nodeID, false, dial, stamp, maxConnections, client);
      GetKeeps(was, Abstract(), nodeID, false, dial, stamp, maxConnections, client, ownerWas, clockWas, owner);
    }

    method CloseEntry(nodeID: NodeId)
      requires nodeID in connections
      modifies this`connections, this`closed
      ensures Abstract() == Discard(old(Abstract()), nodeID)
    {
      closed := closed + {connections[nodeID].client};
      connections := connections - {nodeID};
    }

    /** Any client can be returned under any node; every client stays where it belongs if this one is the node's own. */
    method Return(nodeID: NodeId, client: Option<ClientId>, alive: bool, stamp: int)
      requires Valid() && nodeID != "" && clock < stamp
      modifies this
      ensures Valid() && owner == old(owner)
      ensures ReturnTo(old(Abstract()), Abstract(), nodeID, client, alive, stamp, maxConnections)
      ensures clock == if client.None? then old(clock) else stamp
      ensures old(AllFiled()) && (client.Some? ==> old(OwnClient(nodeID, client.value, alive))) ==> AllFiled()
    {
      if client.None? { return; }
      ghost var was, clockWas := Abstract(), clock;
      clock := stamp;
      if !alive {
        closed := closed + {client.value};
        connections := connections - {nodeID};
      } else {
        connections := connections[nodeID := Entry(client.value, stamp)];
        EvictLRU();
      }
      ReturnKeeps(was, Abstract(), nodeID, client.value, alive, stamp, maxConnections, owner, clockWas);
    }

    /** The client was created for the node, and is not closed if it answers. */
    ghost predicate OwnClient(nodeID: NodeId, c: ClientId, alive: bool)
      reads this
    {
      c in owner && owner[c] == nodeID && (alive ==> c !in closed)
    }

    /** Removes the least recently used entry, one per round, until the pool is within its limit. */
    method EvictLRU()
      requires maxConnections >= 1 && "" !in connections
      modifies this`connections, this`closed
      ensures EvictedTo(old(connections), connections, maxConnections)
      ensures closed == old(closed) + Clients(old(connections), old(connections.Keys) - connections.Keys)
    {
      ghost var before := connections;
      ghost var round := 0;
      while |connections| > maxConnections
        invariant |connections| == |before| - round && (round > 0 ==> |connections| >= maxConnections)
        invariant EvictedTo(before, connections, |connections|)
        invariant closed == old(closed) + Clients(before, before.Keys - connections.Keys)
        invariant "" !in connections
      {
        var oldestID := FindOldest();
        OneMoreGone(before, connections, oldestID);
        if oldestID != "" {
          closed := closed + {connections[oldestID].client};
          connections := connections - {oldestID};
        }
        round := round + 1;
      }
    }

    /** The scan over the map, in whatever order the entries come. */
    method FindOldest() returns (oldestID: NodeId)
      requires connections != map[]
      ensures oldestID in connections
      ensures forall id :: id in connections ==> connections[oldestID].lastUsed <= connections[id].lastUsed
    {
      var oldestTime, first := 0, true;
      oldestID := "";
      var remaining := connections.Keys;
      while remaining != {}
        invariant remaining <= connections.Keys
        invariant first ==> remaining == connections.Keys
        invariant !first ==> oldestID in connections && connections[oldestID].lastUsed == oldestTime
        invariant !first ==>
          forall id :: id in connections && id !in remaining ==> oldestTime <= connections[id].lastUsed
        decreases remaining
      {
        var id :| id in remaining;
        if first || connections[id].lastUsed < oldestTime {
          oldestID, oldestTime, first := id, connections[id].lastUsed, false;
        }
        remaining := remaining - {id};
      }
    }

    method CloseAll()
      requires Valid()
      modifies this`connections, this`closed
      ensures Valid() && connections == map[] && (old(AllFiled()) ==> AllFiled())
      ensures closed == old(closed) + Clients(old(connections), old(connections.Keys))
    {
      ghost var was := Abstract();
      ClosingStarts(was);
      while connections != map[]
        invariant Closing(was, Abstract())
        decreases |connections|
      {
        var nodeID :| nodeID in connections;
        ClosingStep(was, Abstract(), nodeID);
        closed := closed + {connections[nodeID].client};
        connections := connections - {nodeID};
      }
      ClosingDone(was, Abstract(), owner);
    }
  }

  /** Some of the entries are left; the clients of the others have been closed. */
  ghost predicate Closing(s: State, s': State) {
    && PartOf(s'.connections, s.connections)
    && s'.closed == s.closed + Clients(s.connections, s.connections.Keys - s'.connections.Keys)
  }

  lemma ClosingStarts(s: State)
    ensures Closing(s, s)
  {
  }

  lemma ClosingStep(s: State, s': State, id: NodeId)
    requires Closing(s, s') && id in s'.connections
    ensures Closing(s, State(s'.connections - {id}, s'.closed + {s'.connections[id].client}))
    ensures |s'.connections - {id}| < |s'.connections|
  {
    OneMoreGone(s.connections, s'.connections, id);
  }

  lemma ClosingDone(s: State, s': State, owner: map<ClientId, NodeId>)
    requires Closing(s, s') && s'.connections == map[]
    ensures s'.closed == s.closed + Clients(s.connections, s.connections.Keys)
    ensures Filed(s, owner) ==> Filed(s', owner)
  {
    assert s.connections.Keys - s'.connections.Keys == s.connections.Keys;
  }

  ghost predicate PartOf(left: map<NodeId, Entry>, before: map<NodeId, Entry>) {
    left.Keys <= before.Keys && forall id :: id in left ==> left[id] == before[id]
  }

  lemma OneMoreGone(before: map<NodeId, Entry>, left: map<NodeId, Entry>, id: NodeId)
    requires PartOf(left, before) && id in left
    ensures var less := left - {id};
      && PartOf(less, before) && less.Keys == left.Keys - {id} && |less| == |left| - 1
      && Clients(before, before.Keys - less.Keys) == Clients(before, before.Keys - left.Keys) + {left[id].client}
  {
    var less := left - {id};
    KeysWithout(left, id);
    assert before.Keys - less.Keys == before.Keys - left.Keys + {id};
    ClientsOneMore(before, before.Keys - left.Keys, id);
  }

  lemma KeysWithout(left: map<NodeId, Entry>, id: NodeId)
    requires id in left
    ensures (left - {id}).Keys == left.Keys - {id} && |left - {id}| == |left| - 1
  {
    var less := left - {id};
    assert less.Keys == left.Keys - {id};
    assert left.Keys == less.Keys + {id};
    assert |left| == |left.Keys| && |less| == |less.Keys|;
  }

  lemma ClientsOneMore(connections: map<NodeId, Entry>, ids: set<NodeId>, id: NodeId)
    requires ids <= connections.Keys && id in connections
    ensures Clients(connections, ids + {id}) == Clients(connections, ids) + {connections[id].client}
  {
    var more := Clients(connections, ids + {id});
    forall c ensures c in more <==> c in Clients(connections, ids) + {connections[id].client} {
      if c in Clients(connections, ids) {
        var x :| x in ids && connections[x].client == c;
        assert x in ids + {id};
      }
      if c == connections[id].client { assert id in ids + {id}; }
    }
  }

  lemma DiscardIsSound(s: State, nodeID: NodeId, owner: map<ClientId, NodeId>, clock: int, max: int)
    requires Sound(s, owner, clock, max)
    ensures Sound(Discard(s, nodeID), owner, clock, max)
  {
    SubsetSize(Discard(s, nodeID).connections.Keys, s.connections.Keys);
  }

  /** Forgetting a node's entry and closing a client of that node keeps the pool sound. */
  lemma DroppedIsSound(s: State, nodeID: NodeId, c: ClientId, owner: map<ClientId, NodeId>, clock: int, max: int)
    requires Sound(s, owner, clock, max) && c in owner && owner[c] == nodeID
    ensures Sound(State(s.connections - {nodeID}, s.closed + {c}), owner, clock, max)
  {
    SubsetSize((s.connections - {nodeID}).Keys, s.connections.Keys);
  }

  // ---------- runs ----------

  /** now, alive and dial are what the call met with, stamp is its second clock reading, client what it returned. */
  datatype Call =
    | DoGet(nodeID: NodeId, now: int, alive: bool, dial: Option<ClientId>, stamp: int, client: Option<ClientId>)
    | DoReturn(nodeID: NodeId, client: Option<ClientId>, alive: bool, stamp: int)
    | DoCloseAll

  /** out has the clients that users hold, one for each Get that has not been answered by a Return. */
  datatype World = World(s: State, owner: map<ClientId, NodeId>, clock: int, out: multiset<ClientId>)

  const NEW_WORLD := World(State(map[], {}), map[], 0, multiset{})

  /** A call as the methods make it: the clock moves on, a dialed client is new, a returned one is the node's own. */
  ghost predicate CallTo(w: World, w': World, c: Call, max: int, idle: int) {
    match c
    case DoGet(nodeID, now, alive, dial, stamp, client) =>
      var usable := Usable(w.s, nodeID, now, idle, alive);
      && nodeID != "" && w.clock <= now <= stamp && w.clock < stamp && w'.clock == stamp
      && (dial.Some? ==> dial.value !in w.owner)
      && w'.owner == (if usable || dial.None? then w.owner else w.owner[dial.value := nodeID])
      && w'.out == (if client.Some? then w.out + multiset{client.value} else w.out)
      && GetTo(w.s, w'.s, nodeID, usable, dial, stamp, max, client)
    case DoReturn(nodeID, client, alive, stamp) =>
      && nodeID != "" && w.clock < stamp && w'.clock == (if client.None? then w.clock else stamp)
      && (client.Some? ==> client.value in w.owner && w.owner[client.value] == nodeID)
      && (client.Some? && alive ==> client.value !in w.s.closed)
      && w'.out == (if client.Some? then w.out - multiset{client.value} else w.out)
      && w'.owner == w.owner && ReturnTo(w.s, w'.s, nodeID, client, alive, stamp, max)
    case DoCloseAll =>
      w' == w.(s := State(map[], w.s.closed + Clients(w.s.connections, w.s.connections.Keys)))
  }

  ghost predicate IsRun(worlds: seq<World>, calls: seq<Call>, max: int, idle: int) {
    && |worlds| == |calls| + 1 && worlds[0] == NEW_WORLD
    && forall k :: 0 <= k < |calls| ==> CallTo(worlds[k], worlds[k + 1], calls[k], max, idle)
  }

  /** The same calls on a plain list of nodes, most recently used first. */
  function ListAfter(calls: seq<Call>, max: nat): seq<NodeId> {
    if calls == [] then [] else
    OnList(ListAfter(calls[..|calls| - 1], max), calls[|calls| - 1], max)
  }

  function OnList(l: seq<NodeId>, c: Call, max: nat): seq<NodeId> {
    match c
    case DoGet(nodeID, _, _, _, _, client) => if client.Some? then Take(Touch(l, nodeID), max) else Without(l, nodeID)
    case DoReturn(nodeID, client, alive, _) =>
      if client.None? then l else if alive then Take(Touch(l, nodeID), max) else Without(l, nodeID)
    case DoCloseAll => []
  }

  lemma CallKeepsList(w: World, w': World, c: Call, max: nat, idle: int, l: seq<NodeId>)
    requires max >= 1 && CallTo(w, w', c, max, idle)
    requires Sound(w.s, w.owner, w.clock, max) && Represents(w.s.connections, l)
    ensures Represents(w'.s.connections, OnList(l, c, max))
  {
    match c
    case DoGet(nodeID, now, alive, dial, stamp, client) =>
      GetRefinesList(w.s, w'.s, nodeID, Usable(w.s, nodeID, now, idle, alive), dial, stamp, max, client, w.owner,
                     w.clock, l);
    case DoReturn(nodeID, client, alive, stamp) =>
      ReturnRefinesList(w.s, w'.s, nodeID, client, alive, stamp, max, w.owner, w.clock, l);
    case DoCloseAll =>
  }

  lemma CallIsSound(w: World, w': World, c: Call, max: nat, idle: int)
    requires max >= 1 && CallTo(w, w', c, max, idle) && Sound(w.s, w.owner, w.clock, max)
    ensures Sound(w'.s, w'.owner, w'.clock, max)
  {
    match c
    case DoGet(nodeID, now, alive, dial, stamp, client) =>
      GetIsSound(w.s, w'.s, nodeID, Usable(w.s, nodeID, now, idle, alive), dial, stamp, max, client, w.owner, w.clock,
                 w'.owner);
    case DoReturn(nodeID, client, alive, stamp) =>
      if client.Some? {
        if alive {
          StoredIsSound(w.s, w'.s, nodeID, Entry(client.value, stamp), w.owner, w.clock, max);
        } else {
          DroppedIsSound(w.s, nodeID, client.value, w.owner, w.clock, max);
        }
      }
    case DoCloseAll =>
      var all := w.s.connections;
      assert all.Keys - w'.s.connections.Keys == all.Keys;
      ClosingDone(w.s, w'.s, w.owner);
  }

  lemma RunPrefix(worlds: seq<World>, calls: seq<Call>, max: int, idle: int, n: nat)
    requires IsRun(worlds, calls, max, idle) && n <= |calls|
    ensures IsRun(worlds[..n + 1], calls[..n], max, idle)
    ensures n < |calls| ==> CallTo(worlds[n], worlds[n + 1], calls[n], max, idle)
  {
    var before, earlier := worlds[..n + 1], calls[..n];
    forall k | 0 <= k < n ensures CallTo(before[k], before[k + 1], earlier[k], max, idle) {
      assert CallTo(worlds[k], worlds[k + 1], calls[k], max, idle);
    }
  }

  /**
   In every run of Get, Return and CloseAll the pool is the recency list: it holds exactly the nodes of the
   list, in its order of use, never more than fit; and no pooled client is closed or under a second node.
   */
  lemma {:induction false} RunRefinesList(worlds: seq<World>, calls: seq<Call>, max: nat, idle: int)
    requires max >= 1 && IsRun(worlds, calls, max, idle)
    ensures var end := worlds[|calls|];
      Sound(end.s, end.owner, end.clock, max) && Represents(end.s.connections, ListAfter(calls, max))
  {
    if calls == [] {
    } else {
      var n := |calls| - 1;
      RunPrefix(worlds, calls, max, idle, n);
      RunRefinesList(worlds[..n + 1], calls[..n], max, idle);
      CallKeepsList(worlds[n], worlds[n + 1], calls[n], max, idle, ListAfter(calls[..n], max));
      CallIsSound(worlds[n], worlds[n + 1], calls[n], max, idle);
    }
  }

  // ---------- what may be used again ----------

  /** The client of a node that was last returned by a Get or handed back to a Return, and when. */
  function LastUse(calls: seq<Call>, id: NodeId): Option<Entry> {
    if calls == [] then None else
    var before := LastUse(calls[..|calls| - 1], id);
    match calls[|calls| - 1]
    case DoGet(nodeID, _, _, _, stamp, client) =>
      if nodeID == id && client.Some? then Some(Entry(client.value, stamp)) else before
    case DoReturn(nodeID, client, alive, stamp) =>
      if nodeID == id && client.Some? && alive then Some(Entry(client.value, stamp)) else before
    case DoCloseAll => before
  }

  ghost predicate EntriesAreLastUses(connections: map<NodeId, Entry>, calls: seq<Call>) {
    forall id :: id in connections ==> LastUse(calls, id) == Some(connections[id])
  }

  /** The entries a store leaves are the new one and those that were there. */
  lemma StoredEntries(s: State, s': State, nodeID: NodeId, entry: Entry, max: int, id: NodeId)
    requires StoredTo(s, s', nodeID, entry, max) && id in s'.connections
    ensures if id == nodeID then s'.connections[id] == entry
            else id in s.connections && s'.connections[id] == s.connections[id]
  {
  }

  lemma CallEntries(w: World, w': World, c: Call, max: nat, idle: int, id: NodeId)
    requires CallTo(w, w', c, max, idle) && id in w'.s.connections
    ensures c.DoGet? && c.nodeID == id && c.client.Some? ==> w'.s.connections[id] == Entry(c.client.value, c.stamp)
    ensures c.DoReturn? && c.nodeID == id && c.client.Some? && c.alive ==>
      w'.s.connections[id] == Entry(c.client.value, c.stamp)
    ensures !(c.DoGet? && c.nodeID == id && c.client.Some?)
      && !(c.DoReturn? && c.nodeID == id && c.client.Some? && c.alive)
      ==> id in w.s.connections && w'.s.connections[id] == w.s.connections[id]
  {
    match c
    case DoGet(nodeID, now, alive, dial, stamp, client) =>
      if !Usable(w.s, nodeID, now, idle, alive) && dial.Some? {
        StoredEntries(Discard(w.s, nodeID), w'.s, nodeID, Entry(dial.value, stamp), max, id);
      }
    case DoReturn(nodeID, client, alive, stamp) =>
      if client.Some? && alive { StoredEntries(w.s, w'.s, nodeID, Entry(client.value, stamp), max, id); }
    case DoCloseAll =>
  }

  lemma {:induction false} RunKeepsLastUses(worlds: seq<World>, calls: seq<Call>, max: nat, idle: int)
    requires IsRun(worlds, calls, max, idle)
    ensures EntriesAreLastUses(worlds[|calls|].s.connections, calls)
  {
    if calls == [] {
    } else {
      var n := |calls| - 1;
      RunPrefix(worlds, calls, max, idle, n);
      RunKeepsLastUses(worlds[..n + 1], calls[..n], max, idle);
      forall id | id in worlds[n + 1].s.connections
        ensures LastUse(calls, id) == Some(worlds[n + 1].s.connections[id])
      {
        CallEntries(worlds[n], worlds[n + 1], calls[n], max, idle, id);
      }
    }
  }

  /**
   In every run a Get returns a cached client without dialing exactly when the node is still on the recency list,
   its client was last returned by a Get or to a Return at most the idle timeout before, and it answers; it is that
   client. A cached client that is not returned is closed.
   */
  lemma GetReusesExactly(worlds: seq<World>, calls: seq<Call>, max: nat, idle: int, k: nat)
    requires max >= 1 && IsRun(worlds, calls, max, idle) && k < |calls| && calls[k].DoGet?
    ensures var used, cached := LastUse(calls[..k], calls[k].nodeID), calls[k].nodeID in ListAfter(calls[..k], max);
      var reused := calls[k].client.Some? && worlds[k + 1].owner == worlds[k].owner;
      && (cached ==> used.Some?)
      && (reused <==> cached && calls[k].now - used.value.lastUsed <= idle && calls[k].alive)
      && (reused ==> calls[k].client == Some(used.value.client))
      && (cached && !reused ==> used.value.client in worlds[k + 1].s.closed)
  {
    var w, w', c := worlds[k], worlds[k + 1], calls[k];
    RunPrefix(worlds, calls, max, idle, k);
    RunRefinesList(worlds[..k + 1], calls[..k], max, idle);
    RunKeepsLastUses(worlds[..k + 1], calls[..k], max, idle);
    if c.dial.Some? { assert w.owner[c.dial.value := c.nodeID] != w.owner by { assert c.dial.value !in w.owner; } }
    if c.dial.Some? && !Usable(w.s, c.nodeID, c.now, idle, c.alive) {
      assert Discard(w.s, c.nodeID).closed <= w'.s.closed;
    }
  }

  // ---------- lost connections ----------

  /** A connection that was dialed and is open, but that neither the pool nor a user has any more. */
  ghost predicate Lost(w: World, c: ClientId) {
    c in w.owner && c !in w.s.closed && !Pooled(w.s, c) && c !in w.out
  }

  /**
   A Return loses a connection exactly when it is the one cached for the node, another client is returned, and
   nobody holds it.
   */
  lemma ReturnLosesExactly(w: World, w': World, nodeID: NodeId, client: Option<ClientId>, alive: bool, stamp: int,
                           max: nat, idle: int, c: ClientId)
    requires max >= 1 && CallTo(w, w', DoReturn(nodeID, client, alive, stamp), max, idle)
    requires Sound(w.s, w.owner, w.clock, max) && c in w.owner && c !in w.s.closed && !Lost(w, c)
    ensures Lost(w', c) <==>
      client.Some? && nodeID in w.s.connections && c == w.s.connections[nodeID].client && c != client.value
      && c !in w.out
  {
    if Pooled(w.s, c) {
      ReturnMayDropOpenClient(w.s, w'.s, nodeID, client, alive, stamp, max, w.owner, w.clock, c);
      if client.Some? && c == client.value { ReturnedIsKept(w, w', nodeID, c, alive, stamp, max, idle); }
    } else {
      assert nodeID in w.s.connections ==> c != w.s.connections[nodeID].client;
      if client.Some? && c == client.value { ReturnedIsKept(w, w', nodeID, c, alive, stamp, max, idle); }
    }
  }

  lemma ReturnedIsKept(w: World, w': World, nodeID: NodeId, c: ClientId, alive: bool, stamp: int, max: nat,
                       idle: int)
    requires max >= 1 && CallTo(w, w', DoReturn(nodeID, Some(c), alive, stamp), max, idle)
    requires Sound(w.s, w.owner, w.clock, max)
    ensures Pooled(w'.s, c) || c in w'.s.closed
  {
    if alive {
      StoredIsSound(w.s, w'.s, nodeID, Entry(c, stamp), w.owner, w.clock, max);
      assert w'.s.connections[nodeID].client == c;
    }
  }

  /** A Get loses none: what leaves the pool is closed, and what it returns is held. */
  lemma GetLosesNone(w: World, w': World, c: Call, max: nat, idle: int, x: ClientId)
    requires max >= 1 && c.DoGet? && CallTo(w, w', c, max, idle) && Sound(w.s, w.owner, w.clock, max)
    requires x in w.owner && !Lost(w, x)
    ensures !Lost(w', x)
  {
    if Pooled(w.s, x) {
      GetClosesWhatLeaves(w.s, w'.s, c.nodeID, Usable(w.s, c.nodeID, c.now, idle, c.alive), c.dial, c.stamp, max,
                          c.client, x);
    }
  }

  /** Storing an entry newer than the only one leaves a pool of one with just that entry. */
  lemma PoolOfOne(c: ClientId, id: NodeId, t: int, closed: set<ClientId>, nodeID: NodeId, entry: Entry)
    requires t < entry.lastUsed
    ensures StoredTo(State(map[id := Entry(c, t)], closed),
      State(map[nodeID := entry], if id == nodeID then closed else closed + {c}), nodeID, entry, 1)
  {
    var before, after := map[id := Entry(c, t)], map[nodeID := entry];
    var stored := before[nodeID := entry];
    if id == nodeID {
      assert stored == after && stored.Keys - after.Keys == {};
    } else {
      assert stored.Keys == {id, nodeID} && stored.Keys - after.Keys == {id};
      assert |stored| == |stored.Keys| == 2;
      assert Clients(stored, {id}) == {c};
    }
  }

  /** A Get that finds nothing usable in a pool of one whose entry is another node's. */
  lemma DialedGet(w: World, id: NodeId, c: ClientId, t: int, nodeID: NodeId, client: ClientId, stamp: int,
                  idle: int)
    requires w.s.connections == map[id := Entry(c, t)] && t < stamp && w.clock < stamp
    requires id != nodeID && nodeID != "" && client !in w.owner
    ensures CallTo(w,
      World(State(map[nodeID := Entry(client, stamp)], w.s.closed + {c}), w.owner[client := nodeID], stamp,
            w.out + multiset{client}),
      DoGet(nodeID, stamp, true, Some(client), stamp, Some(client)), 1, idle)
  {
    PoolOfOne(c, id, t, w.s.closed, nodeID, Entry(client, stamp));
    assert Discard(w.s, nodeID) == State(map[id := Entry(c, t)], w.s.closed);
  }

  lemma FirstGet(c: ClientId, id: NodeId, t: int, idle: int)
    requires id != "" && t > 0
    ensures CallTo(NEW_WORLD,
      World(State(map[id := Entry(c, t)], {}), map[c := id], t, multiset{c}), DoGet(id, t, true, Some(c), t, Some(c)),
      1, idle)
  {
    var empty: map<NodeId, Entry>, after := map[], map[id := Entry(c, t)];
    assert empty[id := Entry(c, t)] == after && after.Keys - after.Keys == {};
    var none: map<ClientId, NodeId> := map[];
    assert none[c := id] == map[c := id];
  }

  lemma LiveReturn(w: World, id: NodeId, c: ClientId, t: int, stamp: int, idle: int)
    requires w.s.connections == map[id := Entry(c, t)] && t < stamp && w.clock < stamp && id != ""
    requires c in w.owner && w.owner[c] == id && c !in w.s.closed
    ensures CallTo(w,
      World(State(map[id := Entry(c, stamp)], w.s.closed), w.owner, stamp, w.out - multiset{c}),
      DoReturn(id, Some(c), true, stamp), 1, idle)
  {
    PoolOfOne(c, id, t, w.s.closed, id, Entry(c, stamp));
  }

  lemma DeadReturn(w: World, id: NodeId, c: ClientId, t: int, dead: ClientId, stamp: int, idle: int)
    requires w.s.connections == map[id := Entry(c, t)] && w.clock < stamp && id != ""
    requires dead in w.owner && w.owner[dead] == id
    ensures CallTo(w, World(State(map[], w.s.closed + {dead}), w.owner, stamp, w.out - multiset{dead}),
      DoReturn(id, Some(dead), false, stamp), 1, idle)
  {
    assert map[id := Entry(c, t)] - {id} == map[];
  }

  /** Two users of node a and one of node b share a pool of one. */
  const LOSING_CALLS := [
    DoGet("a", 1, true, Some(0), 1, Some(0)),
    DoGet("b", 2, true, Some(1), 2, Some(1)),
    DoGet("a", 3, true, Some(2), 3, Some(2)),
    DoReturn("a", Some(2), true, 4),
    DoReturn("a", Some(0), false, 5)]

  const LOSING_WORLDS := [
    NEW_WORLD,
    World(State(map["a" := Entry(0, 1)], {}), map[0 := "a"], 1, multiset{0}),
    World(State(map["b" := Entry(1, 2)], {0}), map[0 := "a", 1 := "b"], 2, multiset{0, 1}),
    World(State(map["a" := Entry(2, 3)], {0, 1}), map[0 := "a", 1 := "b", 2 := "a"], 3, multiset{0, 1, 2}),
    World(State(map["a" := Entry(2, 4)], {0, 1}), map[0 := "a", 1 := "b", 2 := "a"], 4, multiset{0, 1}),
    World(State(map[], {0, 1}), map[0 := "a", 1 := "b", 2 := "a"], 5, multiset{1})]

  /**
   It happens from a new pool on: the second user of node a returns client 2, then the first returns client 0,
   which the pool had evicted and closed. Client 2 is open, out of the pool, and held by nobody.
   */
  lemma ReturnLosesConnection(idle: int)
    ensures IsRun(LOSING_WORLDS, LOSING_CALLS, 1, idle) && Lost(LOSING_WORLDS[5], 2)
  {
    FirstGet(0, "a", 1, idle);
    SecondCall(idle);
    ThirdCall(idle);
    LastCalls(idle);
    FiveCalls(LOSING_WORLDS, LOSING_CALLS, idle);
  }

  lemma FiveCalls(worlds: seq<World>, calls: seq<Call>, idle: int)
    requires |worlds| == 6 && |calls| == 5 && worlds[0] == NEW_WORLD
    requires CallTo(worlds[0], worlds[1], calls[0], 1, idle) && CallTo(worlds[1], worlds[2], calls[1], 1, idle)
    requires CallTo(worlds[2], worlds[3], calls[2], 1, idle) && CallTo(worlds[3], worlds[4], calls[3], 1, idle)
    requires CallTo(worlds[4], worlds[5], calls[4], 1, idle)
    ensures IsRun(worlds, calls, 1, idle)
  {
    forall k | 0 <= k < 5 ensures CallTo(worlds[k], worlds[k + 1], calls[k], 1, idle) {
      assert k == 0 || k == 1 || k == 2 || k == 3 || k == 4;
    }
  }

  lemma SecondCall(idle: int)
    ensures CallTo(LOSING_WORLDS[1], LOSING_WORLDS[2], LOSING_CALLS[1], 1, idle)
  {
    DialedGet(LOSING_WORLDS[1], "a", 0, 1, "b", 1, 2, idle);
    var none: set<ClientId> := {};
    assert none + {0} == {0} && map[0 := "a"][1 := "b"] == map[0 := "a", 1 := "b"];
    assert multiset{0} + multiset{1} == multiset{0, 1};
  }

  lemma ThirdCall(idle: int)
    ensures CallTo(LOSING_WORLDS[2], LOSING_WORLDS[3], LOSING_CALLS[2], 1, idle)
  {
    DialedGet(LOSING_WORLDS[2], "b", 1, 2, "a", 2, 3, idle);
    assert {0} + {1} == {0, 1} && map[0 := "a", 1 := "b"][2 := "a"] == map[0 := "a", 1 := "b", 2 := "a"];
    assert multiset{0, 1} + multiset{2} == multiset{0, 1, 2};
  }

  lemma LastCalls(idle: int)
    ensures CallTo(LOSING_WORLDS[3], LOSING_WORLDS[4], LOSING_CALLS[3], 1, idle)
    ensures CallTo(LOSING_WORLDS[4], LOSING_WORLDS[5], LOSING_CALLS[4], 1, idle)
  {
    LiveReturn(LOSING_WORLDS[3], "a", 2, 3, 4, idle);
    DeadReturn(LOSING_WORLDS[4], "a", 2, 4, 0, 5, idle);
    assert {0, 1} + {0} == {0, 1};
    assert multiset{0, 1, 2} - multiset{2} == multiset{0, 1} && multiset{0, 1} - multiset{0} == multiset{1};
  }
}
