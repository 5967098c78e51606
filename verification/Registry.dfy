/**
 The connection registry: three maps under one mutex, written by every connection's handler.

 `TcpHandler` is the registry as an object; each method is one critical section. `Next` is the
 interleaving of all handlers, one critical section at a time, and `Inv` is what it keeps.
 */
module Registry {
  import opened Bytes

  type Conn = nat
  type Addr = nat
  type Imei = seq<char>

  /** A logged-in protocol object, told apart by the connection that made it. */
  datatype Protocol = Protocol(owner: Conn, deviceId: Imei)

  datatype ConnectionInfo = ConnectionInfo(conn: Conn, protocol: Protocol)

  datatype Maps = Maps(
    protocols: map<Addr, Protocol>, stores: map<Addr, Conn>, connections: map<Imei, ConnectionInfo>)

  // ----- Critical sections -----

  function Registered(m: Maps, c: Conn, addr: Addr, p: Protocol): Maps {
    Maps(m.protocols[addr := p], m.stores,
         if p.deviceId == [] then m.connections else m.connections[p.deviceId := ConnectionInfo(c, p)])
  }

  function Attached(m: Maps, c: Conn, addr: Addr): Maps {
    Maps(m.protocols, m.stores[addr := c], m.connections)
  }

  /** No IMEI leads to this connection any more. */
  function Without(connections: map<Imei, ConnectionInfo>, c: Conn): map<Imei, ConnectionInfo> {
    map i | i in connections && connections[i].conn != c :: connections[i]
  }

  function CleanedUp(m: Maps, c: Conn, addr: Addr): Maps {
    Maps(m.protocols - {addr}, m.stores - {addr}, Without(m.connections, c))
  }

  /** At most one IMEI leads to each connection. */
  predicate OneImeiEach(connections: map<Imei, ConnectionInfo>) {
    forall i, j :: i in connections && j in connections && connections[i].conn == connections[j].conn ==> i == j
  }

  class TcpHandler {
    var connToProtocolMap: map<Addr, Protocol>
    var connToStoreMap: map<Addr, Conn>
    var imeiToConnMap: map<Imei, ConnectionInfo>

    constructor ()
      ensures State() == Maps(map[], map[], map[])
    {
      connToProtocolMap, connToStoreMap, imeiToConnMap := map[], map[], map[];
    }

    function State(): Maps
      reads this
    {
      Maps(connToProtocolMap, connToStoreMap, imeiToConnMap)
    }

    method Register(c: Conn, addr: Addr, protocol: Protocol)
      modifies this
      ensures State() == Registered(old(State()), c, addr, protocol)
    {
      connToProtocolMap := connToProtocolMap[addr := protocol];
      if protocol.deviceId != [] {
        imeiToConnMap := imeiToConnMap[protocol.deviceId := ConnectionInfo(c, protocol)];
      }
    }

    method AttachStore(c: Conn, addr: Addr)
      modifies this
      ensures State() == Attached(old(State()), c, addr)
    {
      connToStoreMap := connToStoreMap[addr := c];
    }

    /** Walks the map in any order and deletes the first entry of this connection. */
    method DeleteFirst(c: Conn)
      modifies `imeiToConnMap
      ensures (forall i :: i in old(imeiToConnMap) ==> old(imeiToConnMap)[i].conn != c) ==> imeiToConnMap == old(imeiToConnMap)
      ensures (exists i :: i in old(imeiToConnMap) && old(imeiToConnMap)[i].conn == c) ==>
        exists i :: i in old(imeiToConnMap) && old(imeiToConnMap)[i].conn == c && imeiToConnMap == old(imeiToConnMap) - {i}
    {
      var unseen := imeiToConnMap.Keys;
      while unseen != {}
        invariant unseen <= imeiToConnMap.Keys && imeiToConnMap == old(imeiToConnMap)
        invariant forall i :: i in imeiToConnMap && i !in unseen ==> imeiToConnMap[i].conn != c
        decreases |unseen|
      {
        var imei :| imei in unseen;
        if imeiToConnMap[imei].conn == c {
          imeiToConnMap := imeiToConnMap - {imei};
          return;
        }
        unseen := unseen - {imei};
      }
    }

    /** Deleting the first entry is deleting all of them, as long as there is at most one. */
    method CleanUp(c: Conn, addr: Addr)
      requires OneImeiEach(imeiToConnMap)
      modifies this
      ensures State() == CleanedUp(old(State()), c, addr)
    {
      connToProtocolMap := connToProtocolMap - {addr};
      connToStoreMap := connToStoreMap - {addr};
      DeleteFirst(c);
    }

    method GetConnInfoByIMEI(imei: Imei) returns (info: Option<ConnectionInfo>)
      ensures info == if imei in imeiToConnMap then Some(imeiToConnMap[imei]) else None
    {
      info := if imei in imeiToConnMap then Some(imeiToConnMap[imei]) else None;
    }
  }

  // ----- Interleavings -----

  /** How far a connection's handler has come. */
  datatype Phase = Fresh | Registering | Serving | Finished

  /** What never changes: each connection's address and the id its device logs in with. */
  datatype World = World(addr: Conn -> Addr, id: Conn -> Imei)

  /** The maps, every handler's phase, and the order in which handlers registered. */
  datatype System = System(maps: Maps, phase: map<Conn, Phase>, order: seq<Conn>)

  function PhaseOf(s: System, c: Conn): Phase {
    if c in s.phase then s.phase[c] else Fresh
  }

  predicate Live(s: System, c: Conn) {
    PhaseOf(s, c).Registering? || PhaseOf(s, c).Serving?
  }

  function ProtocolOf(w: World, c: Conn): Protocol {
    Protocol(c, w.id(c))
  }

  ghost predicate Init(s: System) {
    s == System(Maps(map[], map[], map[]), map[], [])
  }

  /** A login has succeeded. While a connection is open no other one has its address. */
  ghost predicate RegisterStep(w: World, s: System, t: System, c: Conn) {
    && PhaseOf(s, c).Fresh?
    && (forall d :: Live(s, d) ==> w.addr(d) != w.addr(c))
    && t == System(Registered(s.maps, c, w.addr(c), ProtocolOf(w, c)), s.phase[c := Registering], s.order + [c])
  }

  ghost predicate AttachStep(w: World, s: System, t: System, c: Conn) {
    && PhaseOf(s, c).Registering?
    && t == System(Attached(s.maps, c, w.addr(c)), s.phase[c := Serving], s.order)
  }

  ghost predicate CleanUpStep(w: World, s: System, t: System, c: Conn) {
    && PhaseOf(s, c).Serving?
    && t == System(CleanedUp(s.maps, c, w.addr(c)), s.phase[c := Finished], s.order)
  }

  ghost predicate Next(w: World, s: System, t: System) {
    exists c :: RegisterStep(w, s, t, c) || AttachStep(w, s, t, c) || CleanUpStep(w, s, t, c)
  }

  // ----- What every interleaving keeps -----

  /** The last connection to have registered this id. */
  function Latest(w: World, order: seq<Conn>, i: Imei): Option<Conn> {
    if order == [] then None
    else if w.id(order[|order| - 1]) == i then Some(order[|order| - 1])
    else Latest(w, order[..|order| - 1], i)
  }

  /** An id leads to a connection exactly if that one registered it last and has not cleaned up. */
  ghost predicate ConnectionsRight(w: World, s: System) {
    forall i :: i in s.maps.connections <==>
      i != [] && Latest(w, s.order, i).Some? && !PhaseOf(s, Latest(w, s.order, i).value).Finished?
  }

  ghost predicate InfoRight(w: World, s: System) {
    forall i :: i in s.maps.connections ==>
      && Latest(w, s.order, i).Some?
      && s.maps.connections[i] == ConnectionInfo(Latest(w, s.order, i).value, ProtocolOf(w, Latest(w, s.order, i).value))
  }

  ghost predicate ProtocolsRight(w: World, s: System) {
    && (forall c :: Live(s, c) ==> w.addr(c) in s.maps.protocols && s.maps.protocols[w.addr(c)] == ProtocolOf(w, c))
    && (forall a :: a in s.maps.protocols ==> exists c :: Live(s, c) && w.addr(c) == a)
  }

  ghost predicate StoresRight(w: World, s: System) {
    && (forall c :: PhaseOf(s, c).Serving? ==> w.addr(c) in s.maps.stores && s.maps.stores[w.addr(c)] == c)
    && (forall a :: a in s.maps.stores ==> exists c :: PhaseOf(s, c).Serving? && w.addr(c) == a)
  }

  ghost predicate AddressesDistinct(w: World, s: System) {
    forall c, d :: Live(s, c) && Live(s, d) && w.addr(c) == w.addr(d) ==> c == d
  }

  ghost predicate OrderRight(s: System) {
    && (forall c :: c in s.order <==> !PhaseOf(s, c).Fresh?)
    && (forall i, j :: 0 <= i < j < |s.order| ==> s.order[i] != s.order[j])
  }

  ghost predicate Inv(w: World, s: System) {
    && ConnectionsRight(w, s) && InfoRight(w, s) && ProtocolsRight(w, s) && StoresRight(w, s)
    && AddressesDistinct(w, s) && OrderRight(s)
  }

  /** The registration at `k` is the last one with this id. */
  predicate LastAt(w: World, order: seq<Conn>, i: Imei, k: nat) {
    k < |order| && w.id(order[k]) == i && forall l :: k < l < |order| ==> w.id(order[l]) != i
  }

  lemma {:induction false} LatestMeans(w: World, order: seq<Conn>, i: Imei)
    ensures Latest(w, order, i).None? ==> forall k :: 0 <= k < |order| ==> w.id(order[k]) != i
    ensures Latest(w, order, i).Some? ==> exists k: nat :: LastAt(w, order, i, k) && order[k] == Latest(w, order, i).value
  {
    var n := |order| - 1;
    if order != [] {
      if w.id(order[n]) == i {
        assert LastAt(w, order, i, n);
      } else {
        LatestMeans(w, order[..n], i);
        assert forall k :: 0 <= k < n ==> order[..n][k] == order[k];
        if Latest(w, order, i).Some? {
          var k: nat :| LastAt(w, order[..n], i, k) && order[..n][k] == Latest(w, order, i).value;
          assert LastAt(w, order, i, k);
        }
      }
    }
  }

  lemma LatestHasId(w: World, order: seq<Conn>, i: Imei)
    ensures Latest(w, order, i).Some? ==> Latest(w, order, i).value in order && w.id(Latest(w, order, i).value) == i
  {
    LatestMeans(w, order, i);
  }

  /** Each connection appears under its own id only, which is why cleaning up may stop at the first entry. */
  lemma InvGivesOneImeiEach(w: World, s: System)
    requires Inv(w, s)
    ensures OneImeiEach(s.maps.connections)
    ensures forall i :: i in s.maps.connections ==> w.id(s.maps.connections[i].conn) == i
  {
    forall i | i in s.maps.connections
      ensures w.id(s.maps.connections[i].conn) == i
    {
      LatestHasId(w, s.order, i);
    }
  }

  // ----- Registration -----

  lemma RegisterConnections(w: World, s: System, t: System, c: Conn)
    requires Inv(w, s) && RegisterStep(w, s, t, c)
    ensures ConnectionsRight(w, t) && InfoRight(w, t)
  {}

  lemma RegisterAddresses(w: World, s: System, t: System, c: Conn)
    requires Inv(w, s) && RegisterStep(w, s, t, c)
    ensures ProtocolsRight(w, t) && StoresRight(w, t) && AddressesDistinct(w, t) && OrderRight(t)
  {}

  // ----- Attaching a store -----

  lemma AttachKeeps(w: World, s: System, t: System, c: Conn)
    requires Inv(w, s) && AttachStep(w, s, t, c)
    ensures Inv(w, t)
  {
    assert forall d :: PhaseOf(t, d) == if d == c then Serving else PhaseOf(s, d);
    assert forall d :: Live(t, d) <==> Live(s, d);
    forall a | a in t.maps.protocols
      ensures exists d :: Live(t, d) && w.addr(d) == a
    {
      var d :| Live(s, d) && w.addr(d) == a;
      assert Live(t, d);
    }
    forall a | a in t.maps.stores
      ensures exists d :: PhaseOf(t, d).Serving? && w.addr(d) == a
    {
      if a == w.addr(c) {
        assert PhaseOf(t, c).Serving?;
      } else {
        var d :| PhaseOf(s, d).Serving? && w.addr(d) == a;
        assert PhaseOf(t, d).Serving?;
      }
    }
    assert Live(s, c);
  }

  // ----- Cleaning up -----

  lemma CleanUpConnections(w: World, s: System, t: System, c: Conn)
    requires Inv(w, s) && CleanUpStep(w, s, t, c)
    ensures ConnectionsRight(w, t) && InfoRight(w, t)
  {
    assert forall d :: PhaseOf(t, d) == if d == c then Finished else PhaseOf(s, d);
  }

  lemma CleanUpAddresses(w: World, s: System, t: System, c: Conn)
    requires Inv(w, s) && CleanUpStep(w, s, t, c)
    ensures ProtocolsRight(w, t) && StoresRight(w, t) && AddressesDistinct(w, t) && OrderRight(t)
  {
    assert forall d :: PhaseOf(t, d) == if d == c then Finished else PhaseOf(s, d);
    assert Live(s, c);
    assert forall d :: Live(t, d) <==> d != c && Live(s, d);
    forall a | a in t.maps.protocols
      ensures exists d :: Live(t, d) && w.addr(d) == a
    {
      var d :| Live(s, d) && w.addr(d) == a;
      assert Live(t, d);
    }
    forall a | a in t.maps.stores
      ensures exists d :: PhaseOf(t, d).Serving? && w.addr(d) == a
    {
      var d :| PhaseOf(s, d).Serving? && w.addr(d) == a;
      assert PhaseOf(t, d).Serving?;
    }
  }

  lemma NextKeepsInv(w: World, s: System, t: System)
    requires Inv(w, s) && Next(w, s, t)
    ensures Inv(w, t)
  {
    var c :| RegisterStep(w, s, t, c) || AttachStep(w, s, t, c) || CleanUpStep(w, s, t, c);
    if RegisterStep(w, s, t, c) {
      RegisterConnections(w, s, t, c);
      RegisterAddresses(w, s, t, c);
    } else if AttachStep(w, s, t, c) {
      AttachKeeps(w, s, t, c);
    } else {
      CleanUpConnections(w, s, t, c);
      CleanUpAddresses(w, s, t, c);
    }
  }

  // ----- Whole runs -----

  ghost predicate Behaviour(w: World, run: seq<System>) {
    |run| > 0 && Init(run[0]) && forall k :: 0 <= k < |run| - 1 ==> Next(w, run[k], run[k + 1])
  }

  /** Every state of every interleaving is right. */
  lemma {:induction false} AlwaysRight(w: World, run: seq<System>, k: nat)
    requires Behaviour(w, run) && k < |run|
    ensures Inv(w, run[k])
  {
    if k > 0 {
      AlwaysRight(w, run, k - 1);
      NextKeepsInv(w, run[k - 1], run[k]);
    }
  }

  /**
   In every reachable state an id leads to a connection exactly if that connection is the latest to
   have registered it and has not cleaned up; the protocol found is the connection's own, and while
   the connection lives it is the one its address leads to.
   */
  lemma LookupIff(w: World, run: seq<System>, k: nat, i: Imei, c: Conn)
    requires Behaviour(w, run) && k < |run|
    ensures var s := run[k];
      (i in s.maps.connections && s.maps.connections[i].conn == c)
      <==> i != [] && Latest(w, s.order, i) == Some(c) && Live(s, c)
    ensures var s := run[k];
      i in s.maps.connections && s.maps.connections[i].conn == c ==>
        && s.maps.connections[i].protocol == ProtocolOf(w, c) && s.maps.connections[i].protocol.deviceId == i
        && w.addr(c) in s.maps.protocols && s.maps.protocols[w.addr(c)] == s.maps.connections[i].protocol
  {
    AlwaysRight(w, run, k);
    LatestHasId(w, run[k].order, i);
  }

  /** Once every handler has ended, nothing is left in any map. */
  lemma NothingLeaks(w: World, run: seq<System>, k: nat)
    requires Behaviour(w, run) && k < |run|
    requires forall c :: !Live(run[k], c)
    ensures run[k].maps == Maps(map[], map[], map[])
  {
    AlwaysRight(w, run, k);
    var s := run[k];
    forall i | i in s.maps.connections
      ensures false
    {
      LatestHasId(w, s.order, i);
      assert Live(s, Latest(w, s.order, i).value);
    }
    assert s.maps.connections.Keys == {} && s.maps.protocols.Keys == {} && s.maps.stores.Keys == {};
  }

  /** A finished connection that registered last leaves its id without an entry. */
  lemma LatestFinished(w: World, s: System, i: Imei, c: Conn)
    requires ConnectionsRight(w, s) && Latest(w, s.order, i) == Some(c) && PhaseOf(s, c).Finished?
    ensures i !in s.maps.connections
  {}

  /**
   When two live connections share an id and the newer one ends, the id leads nowhere: the older
   connection is still served but can no longer be found.
   */
  lemma OlderConnectionLost(w: World, run: seq<System>, k: nat, older: Conn, newer: Conn)
    requires Behaviour(w, run) && k + 1 < |run| && CleanUpStep(w, run[k], run[k + 1], newer)
    requires Live(run[k], older) && older != newer && w.id(older) == w.id(newer)
    requires Latest(w, run[k].order, w.id(newer)) == Some(newer)
    ensures Live(run[k + 1], older) && w.id(older) !in run[k + 1].maps.connections
  {
    var s, t := run[k], run[k + 1];
    AlwaysRight(w, run, k + 1);
    StillLive(w, s, t, older, newer);
    LatestFinished(w, t, w.id(newer), newer);
  }

  lemma StillLive(w: World, s: System, t: System, older: Conn, newer: Conn)
    requires CleanUpStep(w, s, t, newer) && Live(s, older) && older != newer
    ensures Live(t, older) && PhaseOf(t, newer).Finished? && t.order == s.order
  {}

  // ----- A run in which that happens -----

  /** Every connection has an address of its own, and all devices log in with the id `id`. */
  function SameId(id: Imei): World {
    World((c: Conn) => c, (c: Conn) => id)
  }

  /** The states of two connections that register one after the other, until the second one ends. */
  function TwoConnections(w: World): seq<System> {
    var p0, p1 := ProtocolOf(w, 0), ProtocolOf(w, 1);
    var empty := Maps(map[], map[], map[]);
    var first := Registered(empty, 0, w.addr(0), p0);
    var firstServed := Attached(first, 0, w.addr(0));
    var second := Registered(firstServed, 1, w.addr(1), p1);
    var secondServed := Attached(second, 1, w.addr(1));
    [ System(empty, map[], []),
      System(first, map[0 := Registering], [0]),
      System(firstServed, map[0 := Serving], [0]),
      System(second, map[0 := Serving, 1 := Registering], [0, 1]),
      System(secondServed, map[0 := Serving, 1 := Serving], [0, 1]),
      System(CleanedUp(secondServed, 1, w.addr(1)), map[0 := Serving, 1 := Finished], [0, 1]) ]
  }

  /** That run is a behaviour, its last step loses the first connection, which is still being served. */
  lemma LostInARun(id: Imei)
    requires id != []
    ensures var w, run := SameId(id), TwoConnections(SameId(id));
      && Behaviour(w, run) && |run| == 6 && CleanUpStep(w, run[4], run[5], 1)
      && id in run[4].maps.connections
      && PhaseOf(run[5], 0).Serving? && id !in run[5].maps.connections
  {
    var w, run := SameId(id), TwoConnections(SameId(id));
    assert RegisterStep(w, run[0], run[1], 0);
    assert AttachStep(w, run[1], run[2], 0) by { assert run[1].phase[0 := Serving] == run[2].phase; }
    assert RegisterStep(w, run[2], run[3], 1) by { assert run[2].phase[1 := Registering] == run[3].phase; }
    assert AttachStep(w, run[3], run[4], 1) by { assert run[3].phase[1 := Serving] == run[4].phase; }
    assert CleanUpStep(w, run[4], run[5], 1) by { assert run[4].phase[1 := Finished] == run[5].phase; }
    OlderConnectionLost(w, run, 4, 0, 1);
  }
}
