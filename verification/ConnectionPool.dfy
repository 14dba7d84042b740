/** The pool and its proxies as objects. The ghost `World` mirrors the two maps and every live
    proxy; each method performs exactly one step of the state machine on it. */
module Pool {
  import opened Options
  import opened PoolModel
  import PoolLaws

  /** Asks a connection whether it works, reconnecting it if not. It fails only when both calls
      answer false; an exception from either counts as working. */
  method CheckConnect(probe: Probe) returns (ok: bool)
    ensures !ok <==> probe == Probe(Returns(false), Returns(false))
  {
    match probe.healthy {
      case Throws => return true;
      case Returns(healthy) =>
        if !healthy {
          match probe.connect {
            case Throws => return true;
            case Returns(connected) => return connected;
          }
        }
    }
    ok := true;
  }

  /** The map after inserting the connections one by one. */
  function Inserted(connections: seq<Owned>): (m: map<Address, Owned>)
    ensures m.Keys == set o | o in connections :: o.target
    ensures forall c :: c in m ==> m[c] == Owned(c)
  {
    if connections == [] then map[]
    else
      var n := |connections| - 1;
      assert connections == connections[..n] + [connections[n]];
      InsertNode(Inserted(connections[..n]), connections[n].target, connections[n])
  }

  lemma InsertedStep(connections: seq<Owned>, i: nat)
    requires i < |connections|
    ensures Inserted(connections[..i + 1]) ==
            InsertNode(Inserted(connections[..i]), connections[i].target, connections[i])
  {
    assert connections[..i + 1][..i] == connections[..i];
  }

  class ConnectionPool {
    var m_connections_idle: map<Address, Owned>
    var m_connections_busy: map<Address, Owned>

    ghost var World: World<ConnectionProxy>

    /** The connections the pool was made with, each under its own address. */
    ghost const Initial: map<Address, Owned>

    /** The maps hold exactly the initial connections, and the mirror shows the objects. */
    ghost predicate Valid()
      reads this, World.proxies.Keys
    {
      && World.maps == Maps(m_connections_idle, m_connections_busy)
      && PoolLaws.Conserved(World, Initial)
      && (forall c :: c in Initial ==> Initial[c] == Owned(c))
      && forall p :: p in World.proxies ==>
           && p.m_connection == World.proxies[p].conn
           && p.m_pool == (if World.proxies[p].pool then this else null)
    }

    /** Takes over the connections; one that is already there is not replaced. */
    constructor (connections: seq<Owned>)
      ensures Valid() && World == Fresh(Initial)
      ensures Initial.Keys == set o | o in connections :: o.target
    {
      hide PoolLaws.Conserved, Inserted;
      m_connections_idle, m_connections_busy := map[], map[];
      Initial := Inserted(connections);
      new;
      for i := 0 to |connections|
        invariant m_connections_busy == map[]
        invariant m_connections_idle == Inserted(connections[..i])
      {
        var connection := connections[i];
        InsertedStep(connections, i);
        m_connections_idle := InsertNode(m_connections_idle, connection.target, connection);
      }
      assert connections[..|connections|] == connections;
      World := Fresh(m_connections_idle);
      FreshConserves(World, Initial);
    }

    /** Hands out the first idle connection that passes its check, in iteration order. */
    method GetConnection(visits: seq<Visit>) returns (proxy: ConnectionProxy)
      requires Valid() && Enumerates(visits, m_connections_idle.Keys)
      modifies this
      ensures fresh(proxy) && Valid()
      ensures Step(old(World), Get(proxy, visits), World)
      ensures proxy.m_pool == (if proxy.m_connection.Some? then this else null)
    {
      hide PoolLaws.Conserved, Enumerates, Taken, Take, Apply, Enabled, InsertNode;
      if m_connections_idle == map[] {
        VisitsAreKeys(visits, m_connections_idle.Keys);
        NothingTaken(World.maps, visits);
        proxy := new ConnectionProxy(null, None);
        GetStep(World, proxy, visits, Initial);
        World := Apply(World, Get(proxy, visits));
        return;
      }
      for i := 0 to |visits|
        invariant unchanged(this)
        invariant forall j :: 0 <= j < i ==> !visits[j].probe.Passes()
      {
        var item := visits[i];
        var ok := CheckConnect(item.probe);
        if !ok {
          continue;
        }
        FirstTaken(World.maps, visits, i);
        proxy := new ConnectionProxy(this, Some(item.conn));
        var node := m_connections_idle[item.conn];
        m_connections_idle := m_connections_idle - {item.conn};
        m_connections_busy := InsertNode(m_connections_busy, item.conn, node);
        GetStep(World, proxy, visits, Initial);
        World := Apply(World, Get(proxy, visits));
        return;
      }
      NothingTaken(World.maps, visits);
      proxy := new ConnectionProxy(null, None);
      GetStep(World, proxy, visits, Initial);
      World := Apply(World, Get(proxy, visits));
    }

    /** Takes a busy connection back; anything else is ignored. */
    method ReleaseConnection(connection: Option<Address>)
      requires Valid()
      modifies this
      ensures Valid() && World == old(World).(maps := Release(old(World).maps, connection))
    {
      PoolLaws.ReleaseConserves(World.maps, connection);
      if connection == None {
        return;
      }
      if connection.value in m_connections_busy {
        var node := m_connections_busy[connection.value];
        m_connections_busy := m_connections_busy - {connection.value};
        m_connections_idle := InsertNode(m_connections_idle, connection.value, node);
        World := World.(maps := Maps(m_connections_idle, m_connections_busy));
      }
    }

    /** The explicit release: the proxy keeps its pointers. */
    method ReleaseProxy(proxy: ConnectionProxy)
      requires Valid() && proxy in World.proxies
      modifies this
      ensures Valid() && Step(old(World), Op.ReleaseProxy(proxy), World)
    {
      ReleaseConnection(proxy.m_connection);
      World := World.(stale := World.stale + if proxy.m_connection.Some? then {proxy} else {});
    }

    /** The size never changes. */
    method Size() returns (n: nat)
      requires Valid()
      ensures n == |World.maps.busy| + |World.maps.idle| == |Initial|
    {
      PoolLaws.DisjointSize(m_connections_idle, m_connections_busy);
      n := |m_connections_busy| + |m_connections_idle|;
    }

    method SizeIdle() returns (n: nat)
      requires Valid()
      ensures n == |World.maps.idle|
    {
      n := |m_connections_idle|;
    }

    method SizeBusy() returns (n: nat)
      requires Valid()
      ensures n == |World.maps.busy|
    {
      n := |m_connections_busy|;
    }

    /** Sends one heart beat to every idle connection and none to any other; `beaten` lists them.
        The order is the map's, which yields each key once. */
    method HeartBeat(order: seq<Address>) returns (beaten: seq<Address>)
      requires Valid() && (forall c :: c in order <==> c in m_connections_idle)
      requires forall i, j :: 0 <= i < j < |order| ==> order[i] != order[j]
      ensures forall c :: multiset(beaten)[c] == if c in World.maps.idle then 1 else 0
    {
      beaten := [];
      for i := 0 to |order|
        invariant beaten == order[..i]
      {
        assert order[i] in order;
        beaten := beaten + [m_connections_idle[order[i]].target];
      }
      assert order[..|order|] == order;
      OnceEach(order);
    }
  }

  lemma {:induction false} OnceEach(order: seq<Address>)
    requires forall i, j :: 0 <= i < j < |order| ==> order[i] != order[j]
    ensures forall c :: multiset(order)[c] == if c in order then 1 else 0
  {
    if order != [] {
      var n := |order| - 1;
      OnceEach(order[..n]);
      assert order == order[..n] + [order[n]];
    }
  }

  lemma FreshConserves<P>(w: World<P>, connections: map<Address, Owned>)
    requires w == Fresh(connections)
    ensures PoolLaws.Conserved(w, connections)
  {
    assert connections + map[] == connections;
  }

  lemma VisitsAreKeys(visits: seq<Visit>, keys: set<Address>)
    requires Enumerates(visits, keys)
    ensures visits != [] ==> visits[0].conn in keys
  {
  }

  lemma GetStep<P>(w: World<P>, p: P, visits: seq<Visit>, connections: map<Address, Owned>)
    requires PoolLaws.Conserved(w, connections) && p !in w.proxies && Enumerates(visits, w.maps.idle.Keys)
    ensures var op, c := Get(p, visits), Taken(w.maps, visits);
      && Enabled(w, op) && PoolLaws.Conserved(Apply(w, op), connections)
      && Apply(w, op) == w.(maps := Take(w.maps, visits), proxies := w.proxies[p := Proxy(c.Some?, c)])
  {
    PoolLaws.StepConserves(w, Get(p, visits), connections);
  }

  lemma NothingTaken(m: Maps, visits: seq<Visit>)
    requires forall i :: 0 <= i < |visits| ==> !visits[i].probe.Passes()
    ensures Taken(m, visits) == None && Take(m, visits) == m
  {
  }

  lemma FirstTaken(m: Maps, visits: seq<Visit>, i: nat)
    requires Enumerates(visits, m.idle.Keys) && i < |visits| && visits[i].probe.Passes()
    requires forall j :: 0 <= j < i ==> !visits[j].probe.Passes()
    ensures var c := visits[i].conn;
      && c in m.idle && Taken(m, visits) == Some(c)
      && Take(m, visits) == Maps(m.idle - {c}, InsertNode(m.busy, c, m.idle[c]))
  {
    PoolLaws.FirstPassingIs(visits, i);
  }

  lemma NoMove<P>(w: World<P>, p: P)
    requires p in w.proxies
    ensures Apply(w, MoveAssign(p, p)) == w
  {
  }

  class ConnectionProxy {
    var m_pool: ConnectionPool?
    var m_connection: Option<Address>

    constructor (pool: ConnectionPool?, connection: Option<Address>)
      ensures m_pool == pool && m_connection == connection
    {
      m_pool := pool;
      m_connection := connection;
    }

    /** Move construction empties the other proxy. */
    constructor MoveFrom(other: ConnectionProxy, ghost pool: ConnectionPool)
      requires pool.Valid() && other in pool.World.proxies
      modifies other, pool`World
      ensures pool.Valid() && Step(old(pool.World), MoveConstruct(this, other), pool.World)
      ensures m_pool == old(other.m_pool) && m_connection == old(other.m_connection)
      ensures other.m_pool == null && other.m_connection == None
    {
      hide Moved, PoolLaws.Conserved;
      m_pool := other.m_pool;
      m_connection := other.m_connection;
      new;
      PoolLaws.StepConserves(pool.World, MoveConstruct(this, other), pool.Initial);
      PoolLaws.MovedView(pool.World, this, other);
      other.m_pool := null;
      other.m_connection := None;
      pool.World := Apply(pool.World, MoveConstruct(this, other));
    }

    /** Move assignment empties the other proxy and drops what this one held. */
    method MoveAssign(other: ConnectionProxy, ghost pool: ConnectionPool)
      requires pool.Valid() && this in pool.World.proxies && other in pool.World.proxies
      modifies this, other, pool`World
      ensures pool.Valid() && Step(old(pool.World), Op.MoveAssign(this, other), pool.World)
      ensures m_pool == old(other.m_pool) && m_connection == old(other.m_connection)
      ensures other != this ==> other.m_pool == null && other.m_connection == None
    {
      hide Moved, Apply, PoolLaws.Conserved;
      ghost var op, w := Op.MoveAssign(this, other), pool.World;
      PoolLaws.StepConserves(w, op, pool.Initial);
      pool.World := Apply(w, op);
      if this == other {
        NoMove(w, this);
        return;
      }
      PoolLaws.MovedView(w, this, other);
      PoolLaws.AssignedView(w, this, other);
      m_pool := other.m_pool;
      m_connection := other.m_connection;
      other.m_pool := null;
      other.m_connection := None;
    }

    /** The destructor gives the connection back. */
    method Destroy(ghost pool: ConnectionPool)
      requires pool.Valid() && this in pool.World.proxies
      modifies pool
      ensures pool.Valid() && Step(old(pool.World), Op.Destroy(this), pool.World)
    {
      if m_pool != null {
        m_pool.ReleaseConnection(m_connection);
      }
      pool.World := pool.World.(proxies := pool.World.proxies - {this}, stale := pool.World.stale - {this});
    }

    /** Whether the pool still lends this connection out. */
    method IsValid(ghost pool: ConnectionPool) returns (answer: bool)
      requires pool.Valid() && this in pool.World.proxies
      ensures answer <==> PoolModel.IsValid(pool.World.maps, pool.World.proxies[this])
    {
      if m_pool != null && m_connection.Some? {
        return m_connection.value in m_pool.m_connections_busy;
      }
      answer := false;
    }
  }
}
