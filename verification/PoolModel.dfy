/** The connection pool as a state machine: the two maps, the live proxies that refer to them,
    and the atomic operations. `P` identifies proxies. */
module PoolModel {
  import opened Options

  /** The address of a connection, which is its key in both maps. */
  type Address = nat

  /** The owning pointer stored under a key. */
  datatype Owned = Owned(target: Address)

  datatype Maps = Maps(idle: map<Address, Owned>, busy: map<Address, Owned>)

  // ----- checking a connection

  /** The outcome of a call into a connection. */
  datatype Call = Returns(b: bool) | Throws

  /** What the two calls of a check would answer. */
  datatype Probe = Probe(healthy: Call, connect: Call)
  {
    /** A standard exception counts as a connection that works. */
    predicate Passes()
    {
      healthy != Returns(false) || connect != Returns(false)
    }
  }

  /** The idle connections in the order the map yields them, with their answers. */
  datatype Visit = Visit(conn: Address, probe: Probe)

  ghost predicate Enumerates(visits: seq<Visit>, keys: set<Address>)
  {
    && (forall i, j :: 0 <= i < j < |visits| ==> visits[i].conn != visits[j].conn)
    && (forall i :: 0 <= i < |visits| ==> visits[i].conn in keys)
    && (forall c :: c in keys ==> exists i :: 0 <= i < |visits| && visits[i].conn == c)
  }

  /** The first visit that passes its check, or the number of visits. */
  function FirstPassing(visits: seq<Visit>): (n: nat)
    ensures n <= |visits|
    ensures forall i :: 0 <= i < n ==> !visits[i].probe.Passes()
    ensures n < |visits| ==> visits[n].probe.Passes()
  {
    if visits == [] || visits[0].probe.Passes() then 0 else 1 + FirstPassing(visits[1..])
  }

  // ----- the maps

  /** Inserting a node fails, and loses the node, when the key is taken. */
  function InsertNode(m: map<Address, Owned>, c: Address, node: Owned): map<Address, Owned>
  {
    if c in m then m else m[c := node]
  }

  function Busied(m: Maps, c: Address): Maps
    requires c in m.idle
  {
    Maps(m.idle - {c}, InsertNode(m.busy, c, m.idle[c]))
  }

  function Taken(m: Maps, visits: seq<Visit>): Option<Address>
  {
    var n := FirstPassing(visits);
    if n < |visits| then Some(visits[n].conn) else None
  }

  function Take(m: Maps, visits: seq<Visit>): Maps
  {
    var c := Taken(m, visits);
    if c.Some? && c.value in m.idle then Busied(m, c.value) else m
  }

  function Release(m: Maps, conn: Option<Address>): Maps
  {
    if conn.Some? && conn.value in m.busy
    then Maps(InsertNode(m.idle, conn.value, m.busy[conn.value]), m.busy - {conn.value})
    else m
  }

  // ----- the world around the pool

  /** A proxy: whether it points to the pool, and to which connection. */
  datatype Proxy = Proxy(pool: bool, conn: Option<Address>)

  const EMPTY: Proxy := Proxy(false, None)

  /** The pool and every live proxy. Two sets keep the books and influence nothing: the
      connections whose proxy was overwritten by an assignment, and the proxies that were
      released explicitly and still point to their connection. */
  datatype World<P(==)> = World(
    maps: Maps, proxies: map<P, Proxy>, orphaned: set<Address>, stale: set<P>)

  datatype Op<P(==)> =
    | Get(p: P, visits: seq<Visit>)
    | MoveConstruct(p: P, src: P)
    | MoveAssign(p: P, src: P)
    | Destroy(p: P)
    | ReleaseProxy(p: P)
    | AskSize(total: nat)
    | AskValid(p: P, answer: bool)

  /** The operation can happen; a query can happen only with its right answer. */
  ghost predicate Enabled<P>(w: World<P>, op: Op<P>)
  {
    match op
    case Get(p, visits) => p !in w.proxies && Enumerates(visits, w.maps.idle.Keys)
    case MoveConstruct(p, src) => p !in w.proxies && src in w.proxies
    case MoveAssign(p, src) => p in w.proxies && src in w.proxies
    case Destroy(p) => p in w.proxies
    case ReleaseProxy(p) => p in w.proxies
    case AskSize(total) => total == |w.maps.busy| + |w.maps.idle|
    case AskValid(p, answer) => p in w.proxies && answer == IsValid(w.maps, w.proxies[p])
  }

  predicate IsValid(m: Maps, proxy: Proxy)
  {
    proxy.pool && proxy.conn.Some? && proxy.conn.value in m.busy
  }

  /** Moving out of `src` into `p`. */
  function Moved<P>(w: World<P>, p: P, src: P): World<P>
    requires src in w.proxies
  {
    w.(proxies := w.proxies[p := w.proxies[src]][src := EMPTY],
       stale := w.stale - {p, src} + if src in w.stale then {p} else {})
  }

  function Apply<P>(w: World<P>, op: Op<P>): World<P>
    requires (op.MoveConstruct? || op.MoveAssign?) ==> op.src in w.proxies
    requires (op.MoveAssign? || op.Destroy? || op.ReleaseProxy?) ==> op.p in w.proxies
  {
    match op
    case Get(p, visits) =>
      var c := Taken(w.maps, visits);
      w.(maps := Take(w.maps, visits), proxies := w.proxies[p := Proxy(c.Some?, c)])
    case MoveConstruct(p, src) => Moved(w, p, src)
    case MoveAssign(p, src) =>
      if p == src then w
      else
        var old_ := w.proxies[p].conn;
        Moved(w, p, src).(orphaned := w.orphaned + if old_.Some? && p !in w.stale then {old_.value} else {})
    case Destroy(p) =>
      var d := w.proxies[p];
      w.(maps := if d.pool then Release(w.maps, d.conn) else w.maps,
         proxies := w.proxies - {p}, stale := w.stale - {p})
    case ReleaseProxy(p) =>
      var d := w.proxies[p];
      w.(maps := Release(w.maps, d.conn), stale := w.stale + if d.conn.Some? then {p} else {})
    case AskSize(_) => w
    case AskValid(_, _) => w
  }

  /** One operation leads from `w` to `w'`. */
  ghost predicate Step<P>(w: World<P>, op: Op<P>, w': World<P>)
  {
    Enabled(w, op) && w' == Apply(w, op)
  }

  // ----- runs

  ghost predicate Feasible<P>(w: World<P>, ops: seq<Op<P>>)
    decreases |ops|, 0
  {
    ops == [] ||
    (var n := |ops| - 1; Feasible(w, ops[..n]) && Enabled(Run(w, ops[..n]), ops[n]))
  }

  ghost function Run<P>(w: World<P>, ops: seq<Op<P>>): World<P>
    requires Feasible(w, ops)
    decreases |ops|, 1
  {
    if ops == [] then w else var n := |ops| - 1; Apply(Run(w, ops[..n]), ops[n])
  }

  /** A pool before its first use. */
  function Fresh<P(==)>(connections: map<Address, Owned>): World<P>
  {
    World(Maps(connections, map[]), map[], {}, {})
  }
}
