/** The pool under threads. Every operation is split into the steps of its code: taking the
    mutex, each access to a map, the destruction of the local proxy, giving the mutex back. */
module PoolInterleaving {
  import opened Options
  import opened PoolModel

  type Tid = nat
  type Pid = nat

  /** Where a thread stands. The names tell what its next step does. */
  datatype Pc =
    | Ready
    | GetLock(p: Pid)
    | GetScan(p: Pid, visits: seq<Visit>, i: nat)
    | GetExtract(p: Pid, visits: seq<Visit>, i: nat)
    | GetInsert(p: Pid, visits: seq<Visit>, i: nat, node: Owned)
    | GetMoveOut(p: Pid, visits: seq<Visit>, local: Proxy)
    | GetDropLocal(p: Pid, visits: seq<Visit>, result: Proxy, local: Proxy)
    | GetRelock(p: Pid, visits: seq<Visit>, result: Proxy, local: Proxy)
    | GetUnlock(p: Pid, visits: seq<Visit>, result: Proxy)
    | ReleaseLock(p: Pid, c: Address, drop: bool)
    | ReleaseFind(p: Pid, c: Address, drop: bool)
    | ReleaseInsert(p: Pid, c: Address, drop: bool, node: Owned)
    | ReleaseUnlock(p: Pid, c: Address, drop: bool)
    | SizeLock
    | SizeCountBusy
    | SizeCountIdle(n: nat)
    | SizeUnlock(total: nat)
    | ValidLock(p: Pid, c: Address)
    | ValidCount(p: Pid, c: Address)
    | ValidUnlock(p: Pid, c: Address, answer: bool)
  {
    /** The next step requests the mutex. */
    predicate Requests()
    {
      GetLock? || GetRelock? || ReleaseLock? || SizeLock? || ValidLock?
    }

    /** The thread has taken the mutex and not given it back. */
    predicate Inside()
    {
      GetRelock? || !(Ready? || Requests())
    }

    /** The proxies the operation works on; no other thread may touch them meanwhile. */
    function Uses(): set<Pid>
    {
      if Ready? || SizeLock? || SizeCountBusy? || SizeCountIdle? || SizeUnlock? then {} else {p}
    }
  }

  /** The shared state, and the history of completed operations with the maps as they were when
      the mutex was last taken. The last two are books that influence nothing. */
  datatype Sys = Sys(
    maps: Maps, proxies: map<Pid, Proxy>, mutex: Option<Tid>, pcs: map<Tid, Pc>,
    hist: seq<Op<Pid>>, base: Maps)

  datatype Act =
    | BeginGet(p: Pid)
    | BeginMoveConstruct(p: Pid, src: Pid)
    | BeginMoveAssign(p: Pid, src: Pid)
    | BeginDestroy(p: Pid)
    | BeginRelease(p: Pid)
    | BeginSize
    | BeginValid(p: Pid)
    | Go(visits: seq<Visit>)

  function At(s: Sys, t: Tid, pc: Pc): Sys
  {
    s.(pcs := s.pcs[t := pc])
  }

  /** Takes the mutex if it is free; otherwise the thread waits. */
  function Lock(s: Sys, t: Tid, pc: Pc): Option<Sys>
  {
    if s.mutex == None then Some(At(s, t, pc).(mutex := Some(t), base := s.maps)) else None
  }

  function Unlock(s: Sys, t: Tid, op: Op<Pid>): Sys
  {
    At(s, t, Ready).(mutex := None, hist := s.hist + [op])
  }

  /** An operation without a critical section. */
  function Instant(s: Sys, t: Tid, op: Op<Pid>, proxies: map<Pid, Proxy>): Option<Sys>
  {
    Some(s.(proxies := proxies, hist := s.hist + [op]))
  }

  ghost predicate Free(s: Sys, p: Pid)
  {
    forall t :: t in s.pcs ==> p !in s.pcs[t].Uses()
  }

  ghost function Begin(s: Sys, t: Tid, act: Act): Option<Sys>
    requires t in s.pcs && !act.Go?
  {
    if s.pcs[t] != Ready then None
    else
      match act
      case BeginGet(p) =>
        if p in s.proxies || !Free(s, p) then None else Some(At(s, t, GetLock(p)))
      case BeginMoveConstruct(p, src) =>
        if p in s.proxies || !Free(s, p) || src !in s.proxies || !Free(s, src) then None
        else Instant(s, t, MoveConstruct(p, src), s.proxies[p := s.proxies[src]][src := EMPTY])
      case BeginMoveAssign(p, src) =>
        if p !in s.proxies || !Free(s, p) || src !in s.proxies || !Free(s, src) then None
        else Instant(s, t, MoveAssign(p, src),
                     if p == src then s.proxies else s.proxies[p := s.proxies[src]][src := EMPTY])
      case BeginDestroy(p) =>
        if p !in s.proxies || !Free(s, p) then None
        else if s.proxies[p].pool && s.proxies[p].conn.Some? then
          Some(At(s, t, ReleaseLock(p, s.proxies[p].conn.value, true)))
        else Instant(s, t, Destroy(p), s.proxies - {p})
      case BeginRelease(p) =>
        if p !in s.proxies || !Free(s, p) then None
        else if s.proxies[p].conn.Some? then
          Some(At(s, t, ReleaseLock(p, s.proxies[p].conn.value, false)))
        else Instant(s, t, ReleaseProxy(p), s.proxies)
      case BeginSize => Some(At(s, t, SizeLock))
      case BeginValid(p) =>
        if p !in s.proxies || !Free(s, p) then None
        else if s.proxies[p].pool && s.proxies[p].conn.Some? then
          Some(At(s, t, ValidLock(p, s.proxies[p].conn.value)))
        else Instant(s, t, AskValid(p, false), s.proxies)
  }

  ghost function GoGet(s: Sys, t: Tid, visits: seq<Visit>): Option<Sys>
    requires t in s.pcs
  {
    match s.pcs[t]
    case GetLock(p) =>
      if Enumerates(visits, s.maps.idle.Keys) then Lock(s, t, GetScan(p, visits, 0)) else None
    case GetScan(p, vs, i) =>
      if i >= |vs| then Some(At(s, t, GetUnlock(p, vs, EMPTY)))
      else if vs[i].probe.Passes() then Some(At(s, t, GetExtract(p, vs, i)))
      else Some(At(s, t, GetScan(p, vs, i + 1)))
    case GetExtract(p, vs, i) =>
      if i < |vs| && vs[i].conn in s.maps.idle then
        Some(At(s, t, GetInsert(p, vs, i, s.maps.idle[vs[i].conn]))
             .(maps := Maps(s.maps.idle - {vs[i].conn}, s.maps.busy)))
      else None
    case GetInsert(p, vs, i, node) =>
      if i < |vs| then
        Some(At(s, t, GetMoveOut(p, vs, Proxy(true, Some(vs[i].conn))))
             .(maps := Maps(s.maps.idle, InsertNode(s.maps.busy, vs[i].conn, node))))
      else None
    case GetMoveOut(p, vs, local) => Some(At(s, t, GetDropLocal(p, vs, local, EMPTY)))
    case GetDropLocal(p, vs, result, local) =>
      Some(At(s, t, if local.pool then GetRelock(p, vs, result, local) else GetUnlock(p, vs, result)))
    case GetUnlock(p, vs, result) =>
      Some(Unlock(s, t, Get(p, vs)).(proxies := s.proxies[p := result]))
    case _ => None
  }

  function GoRelease(s: Sys, t: Tid): Option<Sys>
    requires t in s.pcs
  {
    match s.pcs[t]
    case ReleaseLock(p, c, drop) => Lock(s, t, ReleaseFind(p, c, drop))
    case ReleaseFind(p, c, drop) =>
      if c in s.maps.busy then
        Some(At(s, t, ReleaseInsert(p, c, drop, s.maps.busy[c])).(maps := Maps(s.maps.idle, s.maps.busy - {c})))
      else Some(At(s, t, ReleaseUnlock(p, c, drop)))
    case ReleaseInsert(p, c, drop, node) =>
      Some(At(s, t, ReleaseUnlock(p, c, drop)).(maps := Maps(InsertNode(s.maps.idle, c, node), s.maps.busy)))
    case ReleaseUnlock(p, c, drop) =>
      if drop then Some(Unlock(s, t, Destroy(p)).(proxies := s.proxies - {p}))
      else Some(Unlock(s, t, ReleaseProxy(p)))
    case _ => None
  }

  function GoQuery(s: Sys, t: Tid): Option<Sys>
    requires t in s.pcs
  {
    match s.pcs[t]
    case SizeLock => Lock(s, t, SizeCountBusy)
    case SizeCountBusy => Some(At(s, t, SizeCountIdle(|s.maps.busy|)))
    case SizeCountIdle(n) => Some(At(s, t, SizeUnlock(n + |s.maps.idle|)))
    case SizeUnlock(total) => Some(Unlock(s, t, AskSize(total)))
    case ValidLock(p, c) => Lock(s, t, ValidCount(p, c))
    case ValidCount(p, c) => Some(At(s, t, ValidUnlock(p, c, c in s.maps.busy)))
    case ValidUnlock(p, c, answer) => Some(Unlock(s, t, AskValid(p, answer)))
    case _ => None
  }

  predicate InGet(pc: Pc)
  {
    pc.GetLock? || pc.GetScan? || pc.GetExtract? || pc.GetInsert? || pc.GetMoveOut?
    || pc.GetDropLocal? || pc.GetRelock? || pc.GetUnlock?
  }

  predicate InRelease(pc: Pc)
  {
    pc.ReleaseLock? || pc.ReleaseFind? || pc.ReleaseInsert? || pc.ReleaseUnlock?
  }

  /** One step of one thread, if it can take it. */
  ghost function Next(s: Sys, t: Tid, act: Act): Option<Sys>
  {
    if t !in s.pcs then None
    else if !act.Go? then Begin(s, t, act)
    else if InGet(s.pcs[t]) then GoGet(s, t, act.visits)
    else if InRelease(s.pcs[t]) then GoRelease(s, t)
    else GoQuery(s, t)
  }

  /** An interleaving: which thread takes which step. */
  datatype Label = Label(t: Tid, act: Act)

  ghost function Execute(s: Sys, labels: seq<Label>): Option<Sys>
  {
    if labels == [] then Some(s)
    else
      var n := |labels| - 1;
      var before := Execute(s, labels[..n]);
      if before == None then None else Next(before.value, labels[n].t, labels[n].act)
  }

  function Start(connections: map<Address, Owned>, threads: set<Tid>): Sys
  {
    var maps := Maps(connections, map[]);
    Sys(maps, map[], None, map t | t in threads :: Ready, [], maps)
  }
}
