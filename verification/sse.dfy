/**
 * The server-sent-events hub: the registry of connected browser-extension
 * clients, the `connected` greeting and per-connection heartbeat that `addClient`
 * sets up, the close handler, the `refresh` broadcast that evicts every client
 * whose write fails, and the two read-only queries.
 *
 * The outside world is explicit. A response object is an opaque `Sink` handle;
 * writing to it goes through a `Transport`, whose write either delivers the frame
 * (recorded in the transport's log) or fails, which is how a throwing `res.write`
 * appears here. The JSON text of a message is given by a `json` function, clock
 * readings are parameters, and each heartbeat interval is a `ConnId` whose ticks
 * and whose close event are explicit method calls.
 */
module Sse {
  import opened Wrappers
  import opened OrderedMap
  import opened SseFrames

  type ClientId = string

  /** An HTTP response object, by identity. */
  type Sink = nat

  /** A `Date`, as milliseconds since the epoch. */
  type Instant = int

  /** One call of `addClient` that got as far as starting its heartbeat: the handle of its interval. */
  type ConnId = nat

  /** A registry entry (`SSEClient`). */
  datatype Client = Client(id: ClientId, res: Sink, connectedAt: Instant)

  /** What `getClients` reports of an entry. */
  datatype ClientInfo = ClientInfo(id: ClientId, connectedAt: Instant)

  /** The objects whose JSON text the frames carry. */
  datatype Message =
    | Hello(clientId: ClientId, time: string)
    | Refresh(action: string, url: string, timestamp: string)

  /** The JSON serialisation of messages, supplied from outside. */
  type Json = Message -> string

  datatype WriteResult = Delivered | Failed

  /** A frame that reached a sink. */
  datatype Sent = Sent(sink: Sink, frame: string)

  /** What the timer callback and the close handler of one `addClient` call captured. */
  datatype Connection = Connection(clientId: ClientId, res: Sink)

  /** What a heartbeat tick did: wrote (with the outcome of the write) or cleared its own interval. */
  datatype TickResult = Beat(write: WriteResult) | Stopped

  /** The refresh message; `action` is `"refresh"` when the caller passes none. */
  function RefreshMessage(url: string, action: Option<string>, timestamp: string): (m: Message)
    ensures m.Refresh? && m.url == url && m.timestamp == timestamp
    ensures m.action == (if action.Some? then action.value else "refresh")
  {
    Refresh(action.GetOr("refresh"), url, timestamp)
  }

  /**
   * The transport underneath every response: a write to a sink in `broken` throws,
   * any other write is delivered and appended to `log`.
   */
  class Transport {
    var broken: set<Sink>
    var log: seq<Sent>

    constructor (broken: set<Sink>)
      ensures this.broken == broken && log == []
    {
      this.broken := broken;
      log := [];
    }

    /** `res.write(frame)` */
    method Write(res: Sink, frame: string) returns (r: WriteResult)
      modifies this`log
      ensures r == (if res in broken then Failed else Delivered)
      ensures log == old(log) + (if r == Delivered then [Sent(res, frame)] else [])
    {
      if res in broken {
        r := Failed;
      } else {
        r := Delivered;
        log := log + [Sent(res, frame)];
      }
    }
  }

  /** The entries of `m` whose sink is not broken: the registry after a broadcast. */
  function Kept(m: map<ClientId, Client>, broken: set<Sink>): map<ClientId, Client>
  {
    map id | id in m && m[id].res !in broken :: m[id]
  }

  /** What one write of `frame` to client `c` delivers: the frame, unless its sink is broken. */
  function Delivery(c: Client, broken: set<Sink>, frame: string): seq<Sent>
  {
    if c.res in broken then [] else [Sent(c.res, frame)]
  }

  /**
   * The deliveries of a broadcast of `frame` to the first `n` clients of `ids`, taken
   * in order: every client whose sink is not broken receives the frame, the others
   * nothing.
   */
  function Deliveries(ids: seq<ClientId>, n: nat, m: map<ClientId, Client>, broken: set<Sink>, frame: string): seq<Sent>
    requires n <= |ids|
  {
    if n == 0 then []
    else Deliveries(ids, n - 1, m, broken, frame) + (if ids[n - 1] in m then Delivery(m[ids[n - 1]], broken, frame) else [])
  }

  /**
   * The registry invariant, over values: one entry per id, filed under its own id,
   * every live timer belongs to a known connection, and the connection that stored
   * each entry (`owner`) still has its heartbeat running on the entry's sink.
   */
  ghost predicate Tracks(clients: OrderedMap<ClientId, Client>, connections: seq<Connection>,
                         timers: set<ConnId>, owner: map<ClientId, ConnId>)
  {
    && clients.Valid()
    && (forall id | id in clients.entries :: clients.entries[id].id == id)
    && (forall h | h in timers :: h < |connections|)
    && (forall id | id in clients.entries ::
          && id in owner
          && owner[id] in timers
          && owner[id] < |connections|
          && connections[owner[id]] == Connection(id, clients.entries[id].res))
  }

  /** Storing a new connection's client and starting its heartbeat keeps the invariant. */
  lemma StoreTracks(clients: OrderedMap<ClientId, Client>, connections: seq<Connection>,
                    timers: set<ConnId>, owner: map<ClientId, ConnId>, c: Client)
    requires Tracks(clients, connections, timers, owner)
    ensures Tracks(clients.Set(c.id, c), connections + [Connection(c.id, c.res)],
                   timers + {|connections|}, owner[c.id := |connections|])
  {
    SetSemantics(clients, c.id, c);
  }

  /** Deleting an entry keeps the invariant. */
  lemma DeleteTracks(clients: OrderedMap<ClientId, Client>, connections: seq<Connection>,
                     timers: set<ConnId>, owner: map<ClientId, ConnId>, id: ClientId)
    requires Tracks(clients, connections, timers, owner)
    ensures Tracks(clients.Delete(id), connections, timers, owner)
  {
    DeleteSemantics(clients, id);
  }

  /** Dropping any entries, and nothing else, keeps the invariant. */
  lemma ShrinkTracks(clients: OrderedMap<ClientId, Client>, smaller: OrderedMap<ClientId, Client>,
                     connections: seq<Connection>, timers: set<ConnId>, owner: map<ClientId, ConnId>)
    requires Tracks(clients, connections, timers, owner) && smaller.Valid()
    requires forall id | id in smaller.entries :: id in clients.entries && smaller.entries[id] == clients.entries[id]
    ensures Tracks(smaller, connections, timers, owner)
  {
  }

  /** A connection's close event: deleting its id and clearing its timer keeps the invariant. */
  lemma CloseTracks(clients: OrderedMap<ClientId, Client>, connections: seq<Connection>,
                    timers: set<ConnId>, owner: map<ClientId, ConnId>, conn: ConnId)
    requires Tracks(clients, connections, timers, owner) && conn < |connections|
    ensures var id := connections[conn].clientId;
      Tracks(clients.Delete(id), connections, timers - {conn}, owner)
  {
    DeleteTracks(clients, connections, timers, owner, connections[conn].clientId);
  }

  /** Clearing the timer of a connection whose id is not registered keeps the invariant. */
  lemma ClearTracks(clients: OrderedMap<ClientId, Client>, connections: seq<Connection>,
                    timers: set<ConnId>, owner: map<ClientId, ConnId>, conn: ConnId)
    requires Tracks(clients, connections, timers, owner)
    requires conn < |connections| && !clients.Has(connections[conn].clientId)
    ensures Tracks(clients, connections, timers - {conn}, owner)
  {
  }

  /** The entries of `m` left after the clients `done` were written to. */
  ghost function KeptAmong(m: map<ClientId, Client>, done: seq<ClientId>, broken: set<Sink>): map<ClientId, Client>
  {
    map id | id in m && !(id in done && m[id].res in broken) :: m[id]
  }

  /** The registry part-way through a broadcast, once the clients `ids[..i]` were written to. */
  ghost function Progress(m: map<ClientId, Client>, ids: seq<ClientId>, i: nat, broken: set<Sink>): OrderedMap<ClientId, Client>
    requires i <= |ids|
  {
    var kept := KeptAmong(m, ids[..i], broken);
    OrderedMap(Filter(ids, kept.Keys), kept)
  }

  /** Before the first write, the registry is the snapshot it was taken from. */
  lemma ProgressStart(c: OrderedMap<ClientId, Client>, broken: set<Sink>)
    requires c.Valid()
    ensures Progress(c.entries, c.keys, 0, broken) == c
  {
    FilterKeepsAll(c.keys, c.entries.Keys);
    assert KeptAmong(c.entries, c.keys[..0], broken) == c.entries;
  }

  /** After the last write, exactly the clients with broken sinks are gone; the others keep their order. */
  lemma ProgressEnd(c: OrderedMap<ClientId, Client>, broken: set<Sink>)
    requires c.Valid()
    ensures var p := Progress(c.entries, c.keys, |c.keys|, broken);
      && p.Valid()
      && p.entries == Kept(c.entries, broken)
      && p.keys == Filter(c.keys, p.entries.Keys)
  {
    assert c.keys[..|c.keys|] == c.keys;
    var p := Progress(c.entries, c.keys, |c.keys|, broken);
    FilterDistinct(c.keys, p.entries.Keys);
    forall x ensures x in p.keys <==> x in c.keys && x in p.entries.Keys {
      FilterMembers(c.keys, p.entries.Keys, x);
    }
  }

  /** The entries part of one round of the broadcast loop. */
  lemma KeptStep(m: map<ClientId, Client>, ids: seq<ClientId>, i: nat, broken: set<Sink>)
    requires Distinct(ids) && i < |ids| && ids[i] in m
    ensures var kept, id := KeptAmong(m, ids[..i], broken), ids[i];
      && id in kept && kept[id] == m[id]
      && KeptAmong(m, ids[..i + 1], broken) == if m[id].res in broken then kept - {id} else kept
  {
    var id := ids[i];
    assert ids[..i + 1] == ids[..i] + [id];
    assert id !in ids[..i];
  }

  /**
   * One round of the broadcast loop: the next client is still registered and
   * unchanged, and deleting it exactly when its sink is broken gives the registry
   * after this round.
   */
  lemma FanoutStep(m: map<ClientId, Client>, ids: seq<ClientId>, i: nat, broken: set<Sink>)
    requires Distinct(ids) && i < |ids| && ids[i] in m
    ensures var p, id := Progress(m, ids, i, broken), ids[i];
      && p.Has(id) && p.entries[id] == m[id]
      && Progress(m, ids, i + 1, broken) == if m[id].res in broken then p.Delete(id) else p
  {
    var id := ids[i];
    KeptStep(m, ids, i, broken);
    var keys := KeptAmong(m, ids[..i], broken).Keys;
    FilterTwice(ids, keys, keys - {id});
    assert keys * (keys - {id}) == keys - {id};
  }

  /** One round of the broadcast loop adds the next client's delivery to the log. */
  lemma LogStep(log0: seq<Sent>, before: seq<Sent>, after: seq<Sent>,
                ids: seq<ClientId>, i: nat, m: map<ClientId, Client>, broken: set<Sink>, frame: string)
    requires i < |ids| && ids[i] in m
    requires before == log0 + Deliveries(ids, i, m, broken, frame)
    requires after == before + Delivery(m[ids[i]], broken, frame)
    ensures after == log0 + Deliveries(ids, i + 1, m, broken, frame)
  {
  }

  /** The ids of the clients whose sink is broken: the ones a broadcast evicts. */
  function Failing(m: map<ClientId, Client>, broken: set<Sink>): set<ClientId>
  {
    set id | id in m && m[id].res in broken
  }

  /**
   * A broadcast never adds a client: it removes exactly the failing ones, so the
   * count drops by their number and by nothing else.
   */
  lemma KeptCount(m: map<ClientId, Client>, broken: set<Sink>)
    ensures Kept(m, broken).Keys == m.Keys - Failing(m, broken)
    ensures |Kept(m, broken)| == |m| - |Failing(m, broken)| <= |m|
  {
    var kept, failing := Kept(m, broken).Keys, Failing(m, broken);
    assert kept == m.Keys - failing;
    assert failing <= m.Keys;
    assert |kept| + |failing| == |m.Keys| by {
      assert kept + failing == m.Keys && kept !! failing;
    }
  }

  /**
   * The deliveries to the first `n` clients of `ids` are, in order, one frame for
   * each of those clients that survives, sent to that client's sink.
   */
  lemma {:induction false} DeliveriesInOrder(ids: seq<ClientId>, n: nat, m: map<ClientId, Client>, broken: set<Sink>, frame: string)
    requires n <= |ids|
    requires forall j | 0 <= j < |ids| :: ids[j] in m
    ensures var survivors := Filter(ids[..n], Kept(m, broken).Keys);
      var d := Deliveries(ids, n, m, broken, frame);
      && |d| == |survivors|
      && forall k | 0 <= k < |d| :: survivors[k] in m && d[k] == Sent(m[survivors[k]].res, frame)
    decreases n
  {
    if n > 0 {
      DeliveriesInOrder(ids, n - 1, m, broken, frame);
      assert ids[..n][..n - 1] == ids[..n - 1];
    }
  }

  /**
   * Failure isolation: a broadcast over the registry `c` writes exactly one frame per
   * client whose sink works, to that client's sink, every one of them the same
   * `frame`; a client whose write fails receives nothing and does not stop the others.
   */
  lemma BroadcastReachesSurvivors(c: OrderedMap<ClientId, Client>, broken: set<Sink>, frame: string)
    requires c.Valid()
    ensures var d := Deliveries(c.keys, |c.keys|, c.entries, broken, frame);
      && |d| == |Kept(c.entries, broken)|
      && (forall k | 0 <= k < |d| :: d[k].frame == frame && d[k].sink !in broken)
      && (forall id | id in c.entries && c.entries[id].res !in broken :: Sent(c.entries[id].res, frame) in d)
  {
    var kept := Kept(c.entries, broken);
    var survivors := Filter(c.keys, kept.Keys);
    var d := Deliveries(c.keys, |c.keys|, c.entries, broken, frame);
    assert c.keys[..|c.keys|] == c.keys;
    DeliveriesInOrder(c.keys, |c.keys|, c.entries, broken, frame);
    ProgressEnd(c, broken);
    SizeIsKeyCount(Progress(c.entries, c.keys, |c.keys|, broken));
    forall k | 0 <= k < |d| ensures d[k].frame == frame && d[k].sink !in broken {
      assert survivors[k] in survivors;
      FilterMembers(c.keys, kept.Keys, survivors[k]);
    }
    forall id | id in c.entries && c.entries[id].res !in broken
      ensures Sent(c.entries[id].res, frame) in d
    {
      FilterMembers(c.keys, kept.Keys, id);
      var k :| 0 <= k < |survivors| && survivors[k] == id;
      assert d[k] == Sent(c.entries[id].res, frame);
    }
  }

  class Hub {
    /** The `clients` map. */
    var clients: OrderedMap<ClientId, Client>
    /** Every connection ever set up, indexed by the handle of its heartbeat interval. */
    var connections: seq<Connection>
    /** The heartbeat intervals not yet cleared. */
    var timers: set<ConnId>
    /** The connection that stored each entry. */
    ghost var owner: map<ClientId, ConnId>

    ghost predicate Valid()
      reads this
    {
      Tracks(clients, connections, timers, owner)
    }

    /** The module's `const clients = new Map()`. */
    constructor ()
      ensures Valid()
      ensures clients == Empty() && connections == [] && timers == {}
    {
      clients := Empty();
      connections := [];
      timers := {};
      owner := map[];
    }

    /**
     * `addClient(clientId, res)`: writes the connected frame; when that write throws,
     * the exception leaves `addClient` before anything is stored. Otherwise stores the
     * client (replacing an entry with the same id in place), starts its heartbeat and
     * returns the handle through which its ticks and its close event arrive.
     * `helloTime` and `connectedAt` are the two clock readings the call makes.
     */
    method AddClient(clientId: ClientId, res: Sink, helloTime: string, connectedAt: Instant, json: Json, t: Transport)
      returns (conn: Option<ConnId>)
      requires Valid()
      modifies this, t`log
      ensures Valid()
      ensures t.log == old(t.log) + (if res in t.broken then [] else [Sent(res, ConnectedFrame(json(Hello(clientId, helloTime))))])
      ensures res in t.broken ==>
        && conn == None
        && clients == old(clients) && connections == old(connections) && timers == old(timers)
      ensures res !in t.broken ==>
        && conn == Some(|old(connections)|)
        && clients == old(clients).Set(clientId, Client(clientId, res, connectedAt))
        && connections == old(connections) + [Connection(clientId, res)]
        && timers == old(timers) + {|old(connections)|}
    {
      var w := t.Write(res, ConnectedFrame(json(Hello(clientId, helloTime))));
      if w == Failed {
        return None;
      }
      StoreTracks(clients, connections, timers, owner, Client(clientId, res, connectedAt));
      clients := clients.Set(clientId, Client(clientId, res, connectedAt));
      var h := |connections|;
      connections := connections + [Connection(clientId, res)];
      timers := timers + {h};
      owner := owner[clientId := h];
      conn := Some(h);
    }

    /**
     * One firing of the heartbeat interval of `conn`. It looks the client up by id
     * alone: while that id is registered it writes the heartbeat to the sink it
     * captured, even when a later connection has replaced the entry; once the id is
     * gone it clears its own interval and writes nothing. A write that throws escapes
     * the timer callback and changes nothing here.
     */
    method Tick(conn: ConnId, t: Transport) returns (r: TickResult)
      requires Valid() && conn in timers
      modifies this`timers, t`log
      ensures Valid()
      ensures var c := connections[conn];
        if old(clients.Has(c.clientId)) then
          && r == Beat(if c.res in t.broken then Failed else Delivered)
          && timers == old(timers)
          && t.log == old(t.log) + (if c.res in t.broken then [] else [Sent(c.res, HeartbeatFrame)])
        else
          && r == Stopped
          && timers == old(timers) - {conn}
          && t.log == old(t.log)
    {
      var c := connections[conn];
      if clients.Has(c.clientId) {
        var w := t.Write(c.res, HeartbeatFrame);
        r := Beat(w);
      } else {
        ClearTracks(clients, connections, timers, owner, conn);
        timers := timers - {conn};
        r := Stopped;
      }
    }

    /**
     * The `close` handler of `conn`: deletes the entry filed under the connection's
     * id, whichever connection stored it, and clears the connection's heartbeat.
     */
    method Close(conn: ConnId)
      requires Valid() && conn < |connections|
      modifies this`clients, this`timers
      ensures Valid()
      ensures clients == old(clients).Delete(connections[conn].clientId)
      ensures timers == old(timers) - {conn}
    {
      var id := connections[conn].clientId;
      CloseTracks(clients, connections, timers, owner, conn);
      clients := clients.Delete(id);
      timers := timers - {conn};
    }

    /**
     * `broadcastRefresh(url, action)`: writes one refresh frame to every client
     * registered when the call starts, in insertion order; a client whose write
     * throws is deleted on the spot and the loop goes on with the next one.
     */
    method BroadcastRefresh(url: string, action: Option<string>, timestamp: string, json: Json, t: Transport)
      requires Valid()
      modifies this`clients, t`log
      ensures Valid()
      ensures clients.entries == Kept(old(clients.entries), t.broken)
      ensures clients.keys == Filter(old(clients.keys), clients.entries.Keys)
      ensures |clients.keys| == |old(clients.keys)| - |Failing(old(clients.entries), t.broken)|
      ensures t.log == old(t.log) + Deliveries(old(clients.keys), |old(clients.keys)|, old(clients.entries), t.broken,
                                                 RefreshFrame(json(RefreshMessage(url, action, timestamp))))
    {
      var data := RefreshFrame(json(RefreshMessage(url, action, timestamp)));
      Fanout(data, t);
      ProgressEnd(old(clients), t.broken);
      ShrinkTracks(old(clients), clients, connections, timers, owner);
      KeptCount(old(clients.entries), t.broken);
      SizeIsKeyCount(old(clients));
      SizeIsKeyCount(clients);
    }

    /**
     * The `clients.forEach` loop of `broadcastRefresh`: writes `data` to every client
     * registered when it starts, in insertion order, deleting each one whose write
     * throws and carrying on with the rest.
     */
    method Fanout(data: string, t: Transport)
      requires clients.Valid()
      requires forall id | id in clients.entries :: clients.entries[id].id == id
      modifies this`clients, t`log
      ensures clients == Progress(old(clients.entries), old(clients.keys), |old(clients.keys)|, t.broken)
      ensures t.log == old(t.log) + Deliveries(old(clients.keys), |old(clients.keys)|, old(clients.entries), t.broken, data)
    {
      var snapshot := clients.keys;
      ghost var m0, log0, broken := clients.entries, t.log, t.broken;
      ProgressStart(clients, broken);
      var i := 0;
      while i < |snapshot|
        invariant 0 <= i <= |snapshot|
        invariant clients == Progress(m0, snapshot, i, broken)
        invariant t.log == log0 + Deliveries(snapshot, i, m0, broken, data)
      {
        var id := snapshot[i];
        FanoutStep(m0, snapshot, i, broken);
        ghost var logBefore := t.log;
        Visit(id, data, t);
        LogStep(log0, logBefore, t.log, snapshot, i, m0, broken, data);
        i := i + 1;
      }
    }

    /**
     * The body of the broadcast loop for the client `id`: write the frame to its
     * sink and, when the write throws, delete it.
     */
    method Visit(id: ClientId, data: string, t: Transport)
      requires clients.Has(id) && clients.entries[id].id == id
      modifies this`clients, t`log
      ensures clients == if old(clients.entries[id].res) in t.broken then old(clients).Delete(id) else old(clients)
      ensures t.log == old(t.log) + Delivery(old(clients.entries[id]), t.broken, data)
    {
      var client := clients.entries[id];
      var w := t.Write(client.res, data);
      if w == Failed {
        clients := clients.Delete(client.id);
      }
    }

    /** `getClientCount()`: the number of registered clients, one per listed id. */
    function GetClientCount(): (n: nat)
      requires Valid()
      reads this
      ensures n == |clients.keys|
      ensures n == |GetClients()|
    {
      SizeIsKeyCount(clients);
      clients.Size()
    }

    /**
     * `getClients()`: one `{id, connectedAt}` per entry, in insertion order. The ids
     * are the registered ones, each once.
     */
    function GetClients(): (infos: seq<ClientInfo>)
      requires Valid()
      reads this
      ensures |infos| == |clients.keys|
      ensures forall i | 0 <= i < |infos| ::
        && infos[i].id == clients.keys[i]
        && infos[i].id in clients.entries
        && infos[i].connectedAt == clients.entries[infos[i].id].connectedAt
      ensures forall i, j | 0 <= i < j < |infos| :: infos[i].id != infos[j].id
    {
      Infos(clients.Values())
    }
  }

  /** `values.map(c => ({id: c.id, connectedAt: c.connectedAt}))` */
  function Infos(cs: seq<Client>): (infos: seq<ClientInfo>)
    ensures |infos| == |cs|
    ensures forall i | 0 <= i < |cs| :: infos[i] == ClientInfo(cs[i].id, cs[i].connectedAt)
  {
    if cs == [] then [] else Infos(cs[..|cs| - 1]) + [ClientInfo(cs[|cs| - 1].id, cs[|cs| - 1].connectedAt)]
  }
}
