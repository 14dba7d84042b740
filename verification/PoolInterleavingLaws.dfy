/** Every interleaving of the pool's steps does what some sequence of whole operations does. */
module PoolInterleavingLaws {
  import opened Options
  import opened PoolModel
  import PoolLaws
  import opened PoolInterleaving

  // ----- the invariant

  ghost predicate MutexOk(s: Sys)
  {
    && (s.mutex.Some? ==> s.mutex.value in s.pcs && s.pcs[s.mutex.value].Inside())
    && (forall t :: t in s.pcs && s.pcs[t].Inside() ==> s.mutex == Some(t))
  }

  ghost predicate ProxiesApart(s: Sys)
  {
    forall t, u :: t in s.pcs && u in s.pcs && t != u ==> s.pcs[t].Uses() !! s.pcs[u].Uses()
  }

  /** What an operation in flight knows of the proxy it works on. */
  predicate ProxyOk(pc: Pc, proxies: map<Pid, Proxy>)
  {
    && (InGet(pc) ==> pc.p !in proxies)
    && (InRelease(pc) ==>
          pc.p in proxies && proxies[pc.p].conn == Some(pc.c) && (pc.drop ==> proxies[pc.p].pool))
    && ((pc.ValidLock? || pc.ValidCount? || pc.ValidUnlock?) ==>
          pc.p in proxies && proxies[pc.p] == Proxy(true, Some(pc.c)))
  }

  /** How far the maps are from `b`, the maps at the time the mutex was taken. */
  ghost predicate MapsOk(pc: Pc, m: Maps, b: Maps)
  {
    match pc
    case GetScan(_, vs, i) =>
      m == b && Enumerates(vs, b.idle.Keys) && i <= |vs| && forall j :: 0 <= j < i ==> !vs[j].probe.Passes()
    case GetExtract(_, vs, i) =>
      m == b && Enumerates(vs, b.idle.Keys) && i < |vs| && FirstPassing(vs) == i && vs[i].conn in b.idle
    case GetInsert(_, vs, i, node) =>
      && Enumerates(vs, b.idle.Keys) && i < |vs| && FirstPassing(vs) == i && vs[i].conn in b.idle
      && node == b.idle[vs[i].conn] && m == Maps(b.idle - {vs[i].conn}, b.busy)
    case GetMoveOut(_, vs, local) => Fetched(vs, local, m, b)
    case GetDropLocal(_, vs, result, local) => Fetched(vs, result, m, b) && local == EMPTY
    case GetRelock(_, _, _, _) => false
    case GetUnlock(_, vs, result) => Fetched(vs, result, m, b)
    case ReleaseFind(_, _, _) => m == b
    case ReleaseInsert(_, c, _, node) => c in b.busy && node == b.busy[c] && m == Maps(b.idle, b.busy - {c})
    case ReleaseUnlock(_, c, _) => m == Release(b, Some(c))
    case SizeCountBusy => m == b
    case SizeCountIdle(n) => m == b && n == |b.busy|
    case SizeUnlock(total) => m == b && total == |b.busy| + |b.idle|
    case ValidCount(_, _) => m == b
    case ValidUnlock(_, c, answer) => m == b && (answer <==> c in b.busy)
    case _ => true
  }

  ghost predicate Fetched(visits: seq<Visit>, result: Proxy, m: Maps, b: Maps)
  {
    && Enumerates(visits, b.idle.Keys)
    && result == Proxy(Taken(b, visits).Some?, Taken(b, visits))
    && m == Take(b, visits)
  }

  /** The system is between or inside operations of the world `w`. */
  ghost predicate Linked(s: Sys, w: World<Pid>)
  {
    && w.proxies == s.proxies
    && w.maps == if s.mutex == None then s.maps else s.base
  }

  ghost predicate Inv(s: Sys, w: World<Pid>)
  {
    && MutexOk(s) && ProxiesApart(s)
    && (forall t :: t in s.pcs ==> ProxyOk(s.pcs[t], s.proxies))
    && (s.mutex.Some? ==> MapsOk(s.pcs[s.mutex.value], s.maps, s.base))
    && Linked(s, w)
  }

  // ----- the shapes a step can have

  /** The other threads cannot tell the difference. */
  ghost predicate SameOutside(proxies: map<Pid, Proxy>, proxies': map<Pid, Proxy>, used: set<Pid>)
  {
    forall q :: q !in used ==>
      (q in proxies <==> q in proxies') && (q in proxies ==> proxies'[q] == proxies[q])
  }

  lemma ProxyOkFrame(pc: Pc, proxies: map<Pid, Proxy>, proxies': map<Pid, Proxy>, used: set<Pid>)
    requires ProxyOk(pc, proxies) && SameOutside(proxies, proxies', used) && pc.Uses() !! used
    ensures ProxyOk(pc, proxies')
  {
    if pc.Uses() != {} {
      assert pc.p in pc.Uses();
      assert pc.p !in used;
    }
  }

  lemma OthersApart(s: Sys, t: Tid, pc: Pc)
    requires ProxiesApart(s) && t in s.pcs
    requires forall u :: u in s.pcs && u != t ==> pc.Uses() !! s.pcs[u].Uses()
    ensures ProxiesApart(At(s, t, pc))
  {
  }

  /** A step inside the critical section. */
  lemma InsideStep(s: Sys, w: World<Pid>, t: Tid, pc: Pc, maps: Maps)
    requires Inv(s, w) && t in s.pcs && s.pcs[t].Inside() && pc.Inside()
    requires pc.Uses() == s.pcs[t].Uses() && ProxyOk(pc, s.proxies) && MapsOk(pc, maps, s.base)
    ensures Inv(At(s, t, pc).(maps := maps), w)
  {
    hide MapsOk, ProxyOk;
    OthersApart(s, t, pc);
  }

  lemma LockStep(s: Sys, w: World<Pid>, t: Tid, pc: Pc)
    requires Inv(s, w) && t in s.pcs && s.mutex == None && pc.Inside()
    requires pc.Uses() == s.pcs[t].Uses() && ProxyOk(pc, s.proxies) && MapsOk(pc, s.maps, s.maps)
    ensures Inv(Lock(s, t, pc).value, w)
  {
    hide MapsOk, ProxyOk;
    OthersApart(s, t, pc);
  }

  lemma RequestStep(s: Sys, w: World<Pid>, t: Tid, pc: Pc)
    requires Inv(s, w) && t in s.pcs && s.pcs[t] == Ready && !pc.Inside()
    requires (forall q :: q in pc.Uses() ==> Free(s, q)) && ProxyOk(pc, s.proxies)
    ensures Inv(At(s, t, pc), w)
  {
    hide MapsOk, ProxyOk;
    forall u | u in s.pcs && u != t
      ensures pc.Uses() !! s.pcs[u].Uses()
    {
      forall q | q in pc.Uses()
        ensures q !in s.pcs[u].Uses()
      {
        assert Free(s, q);
      }
    }
    OthersApart(s, t, pc);
  }

  lemma FramedProxies(s: Sys, t: Tid, proxies: map<Pid, Proxy>, used: set<Pid>)
    requires t in s.pcs && (forall u :: u in s.pcs ==> ProxyOk(s.pcs[u], s.proxies))
    requires SameOutside(s.proxies, proxies, used)
    requires forall u :: u in s.pcs && u != t ==> s.pcs[u].Uses() !! used
    ensures forall u :: u in s.pcs && u != t ==> ProxyOk(s.pcs[u], proxies)
  {
    forall u | u in s.pcs && u != t
      ensures ProxyOk(s.pcs[u], proxies)
    {
      ProxyOkFrame(s.pcs[u], s.proxies, proxies, used);
    }
  }

  lemma UnlockStep(s: Sys, w: World<Pid>, t: Tid, op: Op<Pid>, proxies: map<Pid, Proxy>)
    requires Inv(s, w) && t in s.pcs && s.pcs[t].Inside() && SameOutside(s.proxies, proxies, s.pcs[t].Uses())
    requires Enabled(w, op) && Apply(w, op).maps == s.maps && Apply(w, op).proxies == proxies
    ensures Inv(Unlock(s, t, op).(proxies := proxies), Apply(w, op))
  {
    hide MapsOk, ProxyOk, SameOutside, Apply, Enabled;
    FramedProxies(s, t, proxies, s.pcs[t].Uses());
    OthersApart(s, t, Ready);
    ReadyIsOk(proxies);
  }

  lemma ReadyIsOk(proxies: map<Pid, Proxy>)
    ensures ProxyOk(Ready, proxies)
  {
  }

  lemma InstantStep(s: Sys, w: World<Pid>, t: Tid, op: Op<Pid>, proxies: map<Pid, Proxy>, used: set<Pid>)
    requires Inv(s, w) && t in s.pcs && s.pcs[t] == Ready && SameOutside(s.proxies, proxies, used)
    requires forall q :: q in used ==> Free(s, q)
    requires Enabled(w, op) && Apply(w, op).maps == w.maps && Apply(w, op).proxies == proxies
    ensures Inv(Instant(s, t, op, proxies).value, Apply(w, op))
  {
    hide MapsOk, ProxyOk, SameOutside, Apply, Enabled;
    forall u | u in s.pcs
      ensures s.pcs[u].Uses() !! used
    {
      forall q | q in used
        ensures q !in s.pcs[u].Uses()
      {
        assert Free(s, q);
      }
    }
    FramedProxies(s, t, proxies, used);
    ReadyIsOk(proxies);
  }

  // ----- one step

  /** A step either completes no operation, or exactly one, which the world can then make. */
  ghost predicate Refines(s: Sys, w: World<Pid>, s': Sys)
  {
    || (s'.hist == s.hist && Inv(s', w))
    || (s'.hist != [] && s.hist == s'.hist[..|s'.hist| - 1]
        && var op := s'.hist[|s'.hist| - 1]; Enabled(w, op) && Inv(s', Apply(w, op)))
  }

  lemma Completes(s: Sys, w: World<Pid>, s': Sys, op: Op<Pid>)
    requires s'.hist == s.hist + [op] && Enabled(w, op) && Inv(s', Apply(w, op))
    ensures Refines(s, w, s')
  {
  }

  lemma CompletesAtOnce(s: Sys, w: World<Pid>, t: Tid, op: Op<Pid>, proxies: map<Pid, Proxy>, used: set<Pid>)
    requires Inv(s, w) && t in s.pcs && s.pcs[t] == Ready && SameOutside(s.proxies, proxies, used)
    requires forall q :: q in used ==> Free(s, q)
    requires Enabled(w, op) && Apply(w, op).maps == w.maps && Apply(w, op).proxies == proxies
    ensures Refines(s, w, Instant(s, t, op, proxies).value)
  {
    hide Inv, SameOutside, Apply, Enabled, Refines;
    InstantStep(s, w, t, op, proxies, used);
    Completes(s, w, Instant(s, t, op, proxies).value, op);
  }

  lemma BeginMoveRefines(s: Sys, w: World<Pid>, t: Tid, act: Act)
    requires Inv(s, w) && t in s.pcs && (act.BeginMoveConstruct? || act.BeginMoveAssign?) && Begin(s, t, act).Some?
    ensures Refines(s, w, Begin(s, t, act).value)
  {
    hide MapsOk, MutexOk, ProxiesApart, ProxyOk, Free, Refines;
    var op := if act.BeginMoveConstruct? then MoveConstruct(act.p, act.src) else MoveAssign(act.p, act.src);
    CompletesAtOnce(s, w, t, op, Begin(s, t, act).value.proxies, {act.p, act.src});
  }

  lemma BeginEndingRefines(s: Sys, w: World<Pid>, t: Tid, act: Act)
    requires Inv(s, w) && t in s.pcs && (act.BeginDestroy? || act.BeginRelease?) && Begin(s, t, act).Some?
    ensures Refines(s, w, Begin(s, t, act).value)
  {
    hide MapsOk, MutexOk, ProxiesApart, Free;
    var p, drop := act.p, act.BeginDestroy?;
    var d := s.proxies[p];
    if d.conn.Some? && (d.pool || !drop) {
      RequestStep(s, w, t, ReleaseLock(p, d.conn.value, drop));
    } else {
      hide Inv, Refines;
      var op := if drop then Destroy(p) else ReleaseProxy(p);
      EndingWithoutLock(s, w, t, op);
      CompletesAtOnce(s, w, t, op, Begin(s, t, act).value.proxies, {p});
    }
  }

  lemma EndingWithoutLock(s: Sys, w: World<Pid>, t: Tid, op: Op<Pid>)
    requires Inv(s, w) && (op.Destroy? || op.ReleaseProxy?) && op.p in s.proxies
    requires s.proxies[op.p].conn == None || (op.Destroy? && !s.proxies[op.p].pool)
    ensures Enabled(w, op) && Apply(w, op).maps == w.maps
    ensures Apply(w, op).proxies == if op.Destroy? then s.proxies - {op.p} else s.proxies
    ensures SameOutside(s.proxies, Apply(w, op).proxies, {op.p})
  {
    hide MapsOk, MutexOk, ProxiesApart, ProxyOk;
  }

  lemma BeginQueryRefines(s: Sys, w: World<Pid>, t: Tid, act: Act)
    requires Inv(s, w) && t in s.pcs && (act.BeginSize? || act.BeginValid?) && Begin(s, t, act).Some?
    ensures Refines(s, w, Begin(s, t, act).value)
  {
    hide MapsOk, MutexOk, ProxiesApart, Free;
    if act.BeginSize? {
      RequestStep(s, w, t, SizeLock);
    } else {
      var d := s.proxies[act.p];
      if d.pool && d.conn.Some? {
        RequestStep(s, w, t, ValidLock(act.p, d.conn.value));
      } else {
        hide Refines;
        CompletesAtOnce(s, w, t, AskValid(act.p, false), s.proxies, {});
      }
    }
  }

  lemma BeginRefines(s: Sys, w: World<Pid>, t: Tid, act: Act)
    requires Inv(s, w) && t in s.pcs && !act.Go? && Begin(s, t, act).Some?
    ensures Refines(s, w, Begin(s, t, act).value)
  {
    if act.BeginGet? {
      hide MapsOk, MutexOk, ProxiesApart, Free;
      RequestStep(s, w, t, GetLock(act.p));
    } else {
      hide Inv, Refines;
      match act
      case BeginMoveConstruct(_, _) => BeginMoveRefines(s, w, t, act);
      case BeginMoveAssign(_, _) => BeginMoveRefines(s, w, t, act);
      case BeginDestroy(_) => BeginEndingRefines(s, w, t, act);
      case BeginRelease(_) => BeginEndingRefines(s, w, t, act);
      case _ => BeginQueryRefines(s, w, t, act);
    }
  }

  // ----- the steps of a get

  lemma ScanIsOver(visits: seq<Visit>, b: Maps)
    requires Enumerates(visits, b.idle.Keys)
    requires forall j :: 0 <= j < |visits| ==> !visits[j].probe.Passes()
    ensures Fetched(visits, EMPTY, b, b)
  {
  }

  lemma ScanFound(visits: seq<Visit>, i: nat, b: Maps)
    requires Enumerates(visits, b.idle.Keys) && i < |visits| && visits[i].probe.Passes()
    requires forall j :: 0 <= j < i ==> !visits[j].probe.Passes()
    ensures FirstPassing(visits) == i && visits[i].conn in b.idle
  {
    PoolLaws.FirstPassingIs(visits, i);
  }

  lemma InsideIsHolder(s: Sys, w: World<Pid>, t: Tid)
    requires Inv(s, w) && t in s.pcs && s.pcs[t].Inside()
    ensures s.mutex == Some(t) && MapsOk(s.pcs[t], s.maps, s.base) && w.maps == s.base
  {
    hide MapsOk, ProxyOk;
  }

  /** Where a get stands after a step, maps aside. */
  lemma GetShape(s: Sys, w: World<Pid>, t: Tid, visits: seq<Visit>)
    requires Inv(s, w) && t in s.pcs && InGet(s.pcs[t]) && !s.pcs[t].GetUnlock?
    requires GoGet(s, t, visits).Some?
    ensures var pc, s' := s.pcs[t], GoGet(s, t, visits).value;
      && t in s'.pcs
      && var pc' := s'.pcs[t];
      && pc.Uses() == pc'.Uses() && ProxyOk(pc', s.proxies)
      && ((pc.GetDropLocal? && pc.local.pool) || pc'.Inside())
      && (if pc.GetLock? then s.mutex == None && s' == Lock(s, t, pc').value
          else pc.Inside() && s' == At(s, t, pc').(maps := s'.maps))
  {
    hide MutexOk, ProxiesApart, MapsOk, Linked, Enumerates, InsertNode;
  }

  lemma GetScanMaps(s: Sys, t: Tid, visits: seq<Visit>)
    requires t in s.pcs && s.pcs[t].GetScan? && GoGet(s, t, visits).Some? && MapsOk(s.pcs[t], s.maps, s.base)
    ensures var s' := GoGet(s, t, visits).value;
      t in s'.pcs && MapsOk(s'.pcs[t], s'.maps, s'.base)
  {
    var vs, i := s.pcs[t].visits, s.pcs[t].i;
    if i == |vs| {
      ScanIsOver(vs, s.base);
    } else if vs[i].probe.Passes() {
      ScanFound(vs, i, s.base);
    }
    hide Enumerates, FirstPassing, Fetched;
  }

  lemma GetTakeMaps(s: Sys, t: Tid, visits: seq<Visit>)
    requires t in s.pcs && (s.pcs[t].GetExtract? || s.pcs[t].GetInsert?)
    requires GoGet(s, t, visits).Some? && MapsOk(s.pcs[t], s.maps, s.base)
    ensures var s' := GoGet(s, t, visits).value;
      t in s'.pcs && MapsOk(s'.pcs[t], s'.maps, s'.base)
  {
    hide Enumerates;
  }

  lemma GetOtherMaps(s: Sys, t: Tid, visits: seq<Visit>)
    requires t in s.pcs && (s.pcs[t].GetLock? || s.pcs[t].GetMoveOut? || s.pcs[t].GetDropLocal?)
    requires GoGet(s, t, visits).Some?
    requires s.pcs[t].Inside() ==> MapsOk(s.pcs[t], s.maps, s.base)
    ensures var s' := GoGet(s, t, visits).value;
      t in s'.pcs && MapsOk(s'.pcs[t], s'.maps, s'.base)
  {
    hide Enumerates, Fetched;
  }

  /** What a step of a get makes of the maps. */
  lemma GetMaps(s: Sys, t: Tid, visits: seq<Visit>)
    requires t in s.pcs && InGet(s.pcs[t]) && !s.pcs[t].GetUnlock? && GoGet(s, t, visits).Some?
    requires s.pcs[t].Inside() ==> MapsOk(s.pcs[t], s.maps, s.base)
    ensures var s' := GoGet(s, t, visits).value;
      t in s'.pcs && MapsOk(s'.pcs[t], s'.maps, s'.base)
  {
    hide MapsOk;
    match s.pcs[t]
    case GetScan(_, _, _) => GetScanMaps(s, t, visits);
    case GetExtract(_, _, _) => GetTakeMaps(s, t, visits);
    case GetInsert(_, _, _, _) => GetTakeMaps(s, t, visits);
    case _ => GetOtherMaps(s, t, visits);
  }

  lemma GetInsideRefines(s: Sys, w: World<Pid>, t: Tid, visits: seq<Visit>)
    requires Inv(s, w) && t in s.pcs && InGet(s.pcs[t]) && !s.pcs[t].GetUnlock?
    requires GoGet(s, t, visits).Some?
    ensures Inv(GoGet(s, t, visits).value, w) && GoGet(s, t, visits).value.hist == s.hist
  {
    var pc, s' := s.pcs[t], GoGet(s, t, visits).value;
    GetShape(s, w, t, visits);
    if pc.Inside() {
      InsideIsHolder(s, w, t);
    }
    GetMaps(s, t, visits);
    LocalIsEmpty(pc, s.maps, s.base);
    var pc' := s'.pcs[t];
    hide MapsOk, Inv, ProxyOk, GoGet;
    if pc.GetLock? {
      LockStep(s, w, t, pc');
    } else {
      InsideStep(s, w, t, pc', s'.maps);
    }
  }

  /** The local proxy of a get is empty when its destructor runs. */
  lemma LocalIsEmpty(pc: Pc, m: Maps, b: Maps)
    ensures pc.GetDropLocal? && MapsOk(pc, m, b) ==> !pc.local.pool
  {
  }

  lemma GetRefines(s: Sys, w: World<Pid>, t: Tid, visits: seq<Visit>)
    requires Inv(s, w) && t in s.pcs && InGet(s.pcs[t]) && GoGet(s, t, visits).Some?
    ensures Refines(s, w, GoGet(s, t, visits).value)
  {
    if s.pcs[t].GetUnlock? {
      GetUnlockRefines(s, w, t, visits);
    } else {
      GetInsideRefines(s, w, t, visits);
    }
  }

  lemma GetUnlockRefines(s: Sys, w: World<Pid>, t: Tid, visits: seq<Visit>)
    requires Inv(s, w) && t in s.pcs && s.pcs[t].GetUnlock?
    ensures Refines(s, w, GoGet(s, t, visits).value)
  {
    var pc := s.pcs[t];
    var op, proxies := Get(pc.p, pc.visits), s.proxies[pc.p := pc.result];
    FetchedIsGet(s, w, t);
    hide Inv, MapsOk, Refines, Enabled, Apply;
    UnlockStep(s, w, t, op, proxies);
    Completes(s, w, Unlock(s, t, op).(proxies := proxies), op);
  }

  lemma FetchedIsGet(s: Sys, w: World<Pid>, t: Tid)
    requires Inv(s, w) && t in s.pcs && s.pcs[t].GetUnlock?
    ensures var pc := s.pcs[t];
      var op := Get(pc.p, pc.visits);
      && Enabled(w, op) && Apply(w, op).maps == s.maps
      && Apply(w, op).proxies == s.proxies[pc.p := pc.result]
  {
    InsideIsHolder(s, w, t);
    hide Enumerates, Take, Taken, MutexOk, ProxiesApart;
    assert ProxyOk(s.pcs[t], s.proxies);
  }

  // ----- the steps of a release

  lemma ReleaseRefines(s: Sys, w: World<Pid>, t: Tid)
    requires Inv(s, w) && t in s.pcs && InRelease(s.pcs[t]) && GoRelease(s, t).Some?
    ensures Refines(s, w, GoRelease(s, t).value)
  {
    if s.pcs[t].ReleaseUnlock? {
      ReleaseUnlockRefines(s, w, t);
    } else {
      ReleaseInsideRefines(s, w, t);
    }
  }

  lemma ReleaseShape(s: Sys, w: World<Pid>, t: Tid)
    requires Inv(s, w) && t in s.pcs && InRelease(s.pcs[t]) && !s.pcs[t].ReleaseUnlock? && GoRelease(s, t).Some?
    ensures var pc, s' := s.pcs[t], GoRelease(s, t).value;
      && t in s'.pcs
      && var pc' := s'.pcs[t];
      && pc.Uses() == pc'.Uses() && ProxyOk(pc', s.proxies) && pc'.Inside()
      && (if pc.ReleaseLock? then s.mutex == None && s' == Lock(s, t, pc').value
          else pc.Inside() && s' == At(s, t, pc').(maps := s'.maps))
  {
    hide MutexOk, ProxiesApart, MapsOk, Linked, InsertNode;
  }

  lemma ReleaseMaps(s: Sys, t: Tid)
    requires t in s.pcs && InRelease(s.pcs[t]) && !s.pcs[t].ReleaseUnlock? && GoRelease(s, t).Some?
    requires s.pcs[t].Inside() ==> MapsOk(s.pcs[t], s.maps, s.base)
    ensures var s' := GoRelease(s, t).value;
      t in s'.pcs && MapsOk(s'.pcs[t], s'.maps, s'.base)
  {
  }

  lemma ReleaseInsideRefines(s: Sys, w: World<Pid>, t: Tid)
    requires Inv(s, w) && t in s.pcs && InRelease(s.pcs[t]) && !s.pcs[t].ReleaseUnlock? && GoRelease(s, t).Some?
    ensures Inv(GoRelease(s, t).value, w) && GoRelease(s, t).value.hist == s.hist
  {
    var pc, s' := s.pcs[t], GoRelease(s, t).value;
    ReleaseShape(s, w, t);
    if pc.Inside() {
      InsideIsHolder(s, w, t);
    }
    ReleaseMaps(s, t);
    var pc' := s'.pcs[t];
    hide MapsOk, Inv, ProxyOk, GoRelease;
    if pc.ReleaseLock? {
      LockStep(s, w, t, pc');
    } else {
      InsideStep(s, w, t, pc', s'.maps);
    }
  }

  lemma ReleaseUnlockRefines(s: Sys, w: World<Pid>, t: Tid)
    requires Inv(s, w) && t in s.pcs && s.pcs[t].ReleaseUnlock?
    ensures Refines(s, w, GoRelease(s, t).value)
  {
    var pc := s.pcs[t];
    var op := if pc.drop then Destroy(pc.p) else ReleaseProxy(pc.p);
    var proxies := if pc.drop then s.proxies - {pc.p} else s.proxies;
    InsideIsHolder(s, w, t);
    assert ProxyOk(pc, s.proxies);
    assert Enabled(w, op) && Apply(w, op).maps == s.maps && Apply(w, op).proxies == proxies by {
      hide Release, MutexOk, ProxiesApart;
    }
    hide Inv, MapsOk, Refines, Enabled, Apply;
    UnlockStep(s, w, t, op, proxies);
    Completes(s, w, Unlock(s, t, op).(proxies := proxies), op);
  }

  // ----- the steps of a query

  lemma QueryShape(s: Sys, w: World<Pid>, t: Tid)
    requires Inv(s, w) && t in s.pcs && !s.pcs[t].SizeUnlock? && !s.pcs[t].ValidUnlock? && GoQuery(s, t).Some?
    ensures var pc, s' := s.pcs[t], GoQuery(s, t).value;
      && t in s'.pcs
      && var pc' := s'.pcs[t];
      && pc.Uses() == pc'.Uses() && ProxyOk(pc', s.proxies) && pc'.Inside()
      && (if pc.Requests() then s.mutex == None && s' == Lock(s, t, pc').value
          else pc.Inside() && s' == At(s, t, pc').(maps := s'.maps))
  {
    hide MutexOk, ProxiesApart, MapsOk, Linked;
  }

  lemma QueryMaps(s: Sys, t: Tid)
    requires t in s.pcs && !s.pcs[t].SizeUnlock? && !s.pcs[t].ValidUnlock? && GoQuery(s, t).Some?
    requires s.pcs[t].Inside() ==> MapsOk(s.pcs[t], s.maps, s.base)
    ensures var s' := GoQuery(s, t).value;
      t in s'.pcs && MapsOk(s'.pcs[t], s'.maps, s'.base)
  {
    hide Enumerates, Fetched, Release;
  }

  lemma QueryUnlockRefines(s: Sys, w: World<Pid>, t: Tid)
    requires Inv(s, w) && t in s.pcs && (s.pcs[t].SizeUnlock? || s.pcs[t].ValidUnlock?)
    ensures Refines(s, w, GoQuery(s, t).value)
  {
    var pc := s.pcs[t];
    var op := if pc.SizeUnlock? then AskSize(pc.total) else AskValid(pc.p, pc.answer);
    InsideIsHolder(s, w, t);
    assert ProxyOk(pc, s.proxies);
    assert Enabled(w, op) && Apply(w, op) == w && w.maps == s.maps by {
      hide MutexOk, ProxiesApart, Enumerates, Fetched, Release;
    }
    hide Inv, MapsOk, Refines, Enabled, Apply;
    assert w.proxies == s.proxies by { LinkedProxies(s, w); }
    UnlockStep(s, w, t, op, s.proxies);
    Completes(s, w, Unlock(s, t, op).(proxies := s.proxies), op);
  }

  lemma LinkedProxies(s: Sys, w: World<Pid>)
    requires Inv(s, w)
    ensures w.proxies == s.proxies
  {
  }

  lemma QueryRefines(s: Sys, w: World<Pid>, t: Tid)
    requires Inv(s, w) && t in s.pcs && GoQuery(s, t).Some?
    ensures Refines(s, w, GoQuery(s, t).value)
  {
    var pc, s' := s.pcs[t], GoQuery(s, t).value;
    if pc.SizeUnlock? || pc.ValidUnlock? {
      QueryUnlockRefines(s, w, t);
    } else {
      QueryShape(s, w, t);
      if pc.Inside() {
        InsideIsHolder(s, w, t);
      }
      QueryMaps(s, t);
      var pc' := s'.pcs[t];
      hide MapsOk, Inv, ProxyOk, GoQuery;
      if pc.Requests() {
        LockStep(s, w, t, pc');
      } else {
        InsideStep(s, w, t, pc', s'.maps);
      }
    }
  }

  lemma NextRefines(s: Sys, w: World<Pid>, t: Tid, act: Act)
    requires Inv(s, w) && Next(s, t, act).Some?
    ensures Refines(s, w, Next(s, t, act).value)
  {
    hide Inv, Refines, Begin, GoGet, GoRelease, GoQuery;
    if !act.Go? {
      BeginRefines(s, w, t, act);
    } else if InGet(s.pcs[t]) {
      GetRefines(s, w, t, act.visits);
    } else if InRelease(s.pcs[t]) {
      ReleaseRefines(s, w, t);
    } else {
      QueryRefines(s, w, t);
    }
  }

  // ----- whole interleavings

  lemma StartIsLinked(connections: map<Address, Owned>, threads: set<Tid>)
    ensures Inv(Start(connections, threads), Fresh(connections))
  {
  }

  /** The completed operations of any interleaving, in the order of their completion, are a run
      of whole operations that gives the same answers and leads to the state the system is in. */
  lemma {:induction false} EveryInterleavingRefines(
      connections: map<Address, Owned>, threads: set<Tid>, labels: seq<Label>)
    requires Execute(Start(connections, threads), labels).Some?
    ensures var s := Execute(Start(connections, threads), labels).value;
      Feasible(Fresh(connections), s.hist) && Inv(s, Run(Fresh(connections), s.hist))
    decreases |labels|
  {
    var s0: Sys, w0: World<Pid> := Start(connections, threads), Fresh(connections);
    if labels == [] {
      StartIsLinked(connections, threads);
    } else {
      hide Inv, Next;
      var n := |labels| - 1;
      EveryInterleavingRefines(connections, threads, labels[..n]);
      var s := Execute(s0, labels[..n]).value;
      NextRefines(s, Run(w0, s.hist), labels[n].t, labels[n].act);
    }
  }

  /** What an observer sees: with the mutex free, maps and proxies are those of the sequential
      run; while it is held, the proxies still are, and so were the maps when it was taken. One
      thread at a time is inside, and no thread that is inside requests the mutex. */
  lemma {:induction false} InterleavingIsAtomic(connections: map<Address, Owned>, threads: set<Tid>, labels: seq<Label>)
    requires Execute(Start(connections, threads), labels).Some?
    ensures var s := Execute(Start(connections, threads), labels).value;
      && Feasible(Fresh(connections), s.hist)
      && var w := Run(Fresh(connections), s.hist);
      && s.proxies == w.proxies
      && (s.mutex == None ==> s.maps == w.maps)
      && (s.mutex.Some? ==> s.base == w.maps)
      && (forall t, u :: t in s.pcs && u in s.pcs && s.pcs[t].Inside() && s.pcs[u].Inside() ==> t == u)
      && (forall t :: t in s.pcs && s.pcs[t].Requests() ==> s.mutex != Some(t))
  {
    EveryInterleavingRefines(connections, threads, labels);
    var s := Execute(Start(connections, threads), labels).value;
    NobodyRelocks(s, Run(Fresh(connections), s.hist));
    hide ProxyOk, MapsOk, Execute;
  }

  lemma NobodyRelocks(s: Sys, w: World<Pid>)
    requires Inv(s, w)
    ensures forall t :: t in s.pcs ==> !s.pcs[t].GetRelock?
    ensures forall t :: t in s.pcs && s.pcs[t].Requests() ==> s.mutex != Some(t)
  {
    forall t | t in s.pcs
      ensures !s.pcs[t].GetRelock?
    {
      if s.pcs[t].Inside() {
        InsideIsHolder(s, w, t);
      }
    }
    hide MapsOk, ProxyOk;
  }

  /** Whenever the mutex is free, no connection is lost or doubled in the maps. If the record holds
      no explicit release, or only gets that hand out nothing a live proxy still points to, the
      busy connections are the disjoint union of those held by unreleased proxies of any threads
      and those orphaned by assignments, and no two proxies share a connection. */
  lemma {:induction false} InterleavingKeepsBooks(
      connections: map<Address, Owned>, threads: set<Tid>, labels: seq<Label>)
    requires Execute(Start(connections, threads), labels).Some?
    requires Execute(Start(connections, threads), labels).value.mutex == None
    ensures var s := Execute(Start(connections, threads), labels).value;
      && Feasible(Fresh(connections), s.hist)
      && s.maps.idle.Keys !! s.maps.busy.Keys && s.maps.idle + s.maps.busy == connections
      && ((forall i :: 0 <= i < |s.hist| ==> !s.hist[i].ReleaseProxy?) ==>
            && Run(Fresh(connections), s.hist).stale == {}
            && PoolLaws.Careful(Fresh(connections), s.hist))
      && (PoolLaws.Careful(Fresh(connections), s.hist) ==>
            BooksOf(s.maps, s.proxies, Run(Fresh(connections), s.hist)))
  {
    hide Execute, Feasible, Run, Fresh, Start, PoolLaws.Careful, BooksOf, IsValid;
    InterleavingIsAtomic(connections, threads, labels);
    var s := Execute(Start(connections, threads), labels).value;
    PoolLaws.RunConserves(connections, s.hist);
    if forall i :: 0 <= i < |s.hist| ==> !s.hist[i].ReleaseProxy? {
      PoolLaws.RunWithoutRelease(connections, s.hist);
    }
    if PoolLaws.Careful(Fresh(connections), s.hist) {
      CarefulBooks(connections, s.hist);
    }
  }

  lemma CarefulBooks(connections: map<Address, Owned>, ops: seq<Op<Pid>>)
    requires Feasible(Fresh(connections), ops) && PoolLaws.Careful(Fresh(connections), ops)
    ensures var w := Run(Fresh(connections), ops); BooksOf(w.maps, w.proxies, w)
  {
    hide Feasible, Run, Fresh, PoolLaws.Careful, PoolLaws.Held, IsValid;
    PoolLaws.CarefulRun(connections, ops);
  }

  /** The maps and proxies of the system, by the books of the world it shows. */
  ghost predicate BooksOf(m: Maps, proxies: map<Pid, Proxy>, w: World<Pid>)
  {
    && m.busy.Keys == PoolLaws.Held(w) + w.orphaned && PoolLaws.Held(w) !! w.orphaned
    && (forall p :: p in proxies ==>
          (IsValid(m, proxies[p]) <==> proxies[p].conn.Some? && p !in w.stale))
    && (forall p, q :: p in proxies && q in proxies && p != q && proxies[p].conn.Some?
          ==> proxies[p].conn != proxies[q].conn)
    && w.proxies == proxies
  }

  /** Every size reported in any interleaving is the number of connections, although the two
      maps are counted in separate steps. */
  lemma {:induction false} SizesAreConstant(
      connections: map<Address, Owned>, threads: set<Tid>, labels: seq<Label>, i: nat)
    requires Execute(Start(connections, threads), labels).Some?
    requires var hist := Execute(Start(connections, threads), labels).value.hist;
      i < |hist| && hist[i].AskSize?
    ensures Execute(Start(connections, threads), labels).value.hist[i].total == |connections|
  {
    EveryInterleavingRefines(connections, threads, labels);
    var hist := Execute(Start(connections, threads), labels).value.hist;
    hide Inv, Execute, Feasible, Run;
    PoolLaws.SizeAnswersAreConstant(connections, hist, i);
  }

  ghost predicate Recorded(s: Sys, t: Tid, act: Act, s': Sys)
    requires t in s.pcs
  {
    && t in s'.pcs && s'.pcs == s.pcs[t := s'.pcs[t]]
    && (if s'.pcs[t] == Ready
        then |s'.hist| == |s.hist| + 1 && s'.hist[..|s.hist|] == s.hist
             && RecordOf(s'.hist[|s.hist|], s.pcs[t], act)
        else s'.hist == s.hist)
  }

  lemma BeginRecords(s: Sys, t: Tid, act: Act)
    requires t in s.pcs && !act.Go? && Begin(s, t, act).Some?
    ensures Recorded(s, t, act, Begin(s, t, act).value)
  {
    hide Free;
  }

  lemma GetRecords(s: Sys, t: Tid, visits: seq<Visit>)
    requires t in s.pcs && InGet(s.pcs[t]) && GoGet(s, t, visits).Some?
    ensures Recorded(s, t, Go(visits), GoGet(s, t, visits).value)
  {
    hide Enumerates, InsertNode;
  }

  lemma OtherRecords(s: Sys, t: Tid, visits: seq<Visit>)
    requires t in s.pcs
    ensures GoRelease(s, t).Some? ==> Recorded(s, t, Go(visits), GoRelease(s, t).value)
    ensures GoQuery(s, t).Some? ==> Recorded(s, t, Go(visits), GoQuery(s, t).value)
  {
    hide InsertNode;
  }

  /** An operation is recorded in the step that returns its thread to the caller, and no other
      thread moves in that step. */
  lemma RecordedAtReturn(s: Sys, t: Tid, act: Act)
    requires Next(s, t, act).Some?
    ensures Recorded(s, t, act, Next(s, t, act).value)
  {
    hide Recorded, Begin, GoGet, GoRelease, GoQuery;
    if !act.Go? {
      BeginRecords(s, t, act);
    } else if InGet(s.pcs[t]) {
      GetRecords(s, t, act.visits);
    } else {
      OtherRecords(s, t, act.visits);
    }
  }

  /** The record names the operation and the proxy that were called. */
  predicate RecordOf(op: Op<Pid>, pc: Pc, act: Act)
  {
    if act.Go? then
      match op
      case Get(p, _) => InGet(pc) && pc.p == p
      case Destroy(p) => InRelease(pc) && pc.drop && pc.p == p
      case ReleaseProxy(p) => InRelease(pc) && !pc.drop && pc.p == p
      case AskSize(total) => pc == SizeUnlock(total)
      case AskValid(p, answer) => pc.ValidUnlock? && pc.p == p && pc.answer == answer
      case _ => false
    else
      match op
      case MoveConstruct(p, src) => act == BeginMoveConstruct(p, src)
      case MoveAssign(p, src) => act == BeginMoveAssign(p, src)
      case Destroy(p) => act == BeginDestroy(p)
      case ReleaseProxy(p) => act == BeginRelease(p)
      case AskValid(p, answer) => act == BeginValid(p) && !answer
      case _ => false
  }

  // ----- the order of calls

  /** The record answers this call. */
  predicate Answers(op: Op<Pid>, call: Act)
  {
    match call
    case BeginGet(p) => op.Get? && op.p == p
    case BeginMoveConstruct(p, src) => op == MoveConstruct(p, src)
    case BeginMoveAssign(p, src) => op == MoveAssign(p, src)
    case BeginDestroy(p) => op == Destroy(p)
    case BeginRelease(p) => op == ReleaseProxy(p)
    case BeginSize => op.AskSize?
    case BeginValid(p) => op.AskValid? && op.p == p
    case Go(_) => false
  }

  /** A thread that stands here is at work on this call. */
  predicate Serves(pc: Pc, call: Act)
  {
    match call
    case BeginGet(p) => InGet(pc) && pc.p == p
    case BeginDestroy(p) => InRelease(pc) && pc.p == p && pc.drop
    case BeginRelease(p) => InRelease(pc) && pc.p == p && !pc.drop
    case BeginSize => pc.SizeLock? || pc.SizeCountBusy? || pc.SizeCountIdle? || pc.SizeUnlock?
    case BeginValid(p) => (pc.ValidLock? || pc.ValidCount? || pc.ValidUnlock?) && pc.p == p
    case _ => false
  }

  /** A thread at work stays with its call until the step that returns, which records it. */
  ghost predicate Serving(s: Sys, t: Tid, call: Act, s': Sys)
  {
    && t in s'.pcs
    && if s'.pcs[t] == Ready then |s'.hist| > |s.hist| && Answers(s'.hist[|s.hist|], call)
       else Serves(s'.pcs[t], call)
  }

  lemma BeginServes(s: Sys, t: Tid, call: Act)
    requires t in s.pcs && !call.Go? && Begin(s, t, call).Some?
    ensures Serving(s, t, call, Begin(s, t, call).value)
  {
    hide Free;
  }

  lemma GetServes(s: Sys, t: Tid, visits: seq<Visit>, call: Act)
    requires t in s.pcs && Serves(s.pcs[t], call) && InGet(s.pcs[t]) && GoGet(s, t, visits).Some?
    ensures Serving(s, t, call, GoGet(s, t, visits).value)
  {
    hide Enumerates, InsertNode;
  }

  lemma OthersServe(s: Sys, t: Tid, call: Act)
    requires t in s.pcs && Serves(s.pcs[t], call)
    ensures GoRelease(s, t).Some? ==> Serving(s, t, call, GoRelease(s, t).value)
    ensures GoQuery(s, t).Some? ==> Serving(s, t, call, GoQuery(s, t).value)
  {
    hide InsertNode;
  }

  lemma NextServes(s: Sys, t: Tid, act: Act, call: Act)
    requires Next(s, t, act).Some?
    requires if act.Go? then Serves(s.pcs[t], call) else act == call
    ensures Serving(s, t, call, Next(s, t, act).value)
  {
    hide Serving, Serves, Begin, GoGet, GoRelease, GoQuery;
    if !act.Go? {
      BeginServes(s, t, act);
    } else if InGet(s.pcs[t]) {
      GetServes(s, t, act.visits, call);
    } else {
      OthersServe(s, t, call);
    }
  }

  /** The system after the first n steps. */
  ghost function After(s: Sys, labels: seq<Label>, n: nat): Sys
    requires n <= |labels| && Execute(s, labels).Some?
  {
    ExecutePrefix(s, labels, n);
    Execute(s, labels[..n]).value
  }

  lemma {:induction false} ExecutePrefix(s: Sys, labels: seq<Label>, n: nat)
    requires n <= |labels| && Execute(s, labels).Some?
    ensures Execute(s, labels[..n]).Some?
    ensures n < |labels| ==>
              Execute(s, labels[..n + 1]) == Next(Execute(s, labels[..n]).value, labels[n].t, labels[n].act)
    decreases |labels|
  {
    hide Next;
    if n == |labels| {
      assert labels[..n] == labels;
    } else if n == |labels| - 1 {
      assert labels[..n + 1] == labels;
    } else {
      var init := labels[..|labels| - 1];
      ExecutePrefix(s, init, n);
      assert init[..n] == labels[..n] && init[..n + 1] == labels[..n + 1];
    }
  }

  /** One step of the execution. */
  lemma AfterStep(s: Sys, labels: seq<Label>, n: nat)
    requires n < |labels| && Execute(s, labels).Some?
    ensures var v, l := After(s, labels, n), labels[n];
      && Next(v, l.t, l.act) == Some(After(s, labels, n + 1))
      && l.t in v.pcs && Recorded(v, l.t, l.act, After(s, labels, n + 1))
  {
    hide Next, Recorded;
    ExecutePrefix(s, labels, n);
    ExecutePrefix(s, labels, n + 1);
    StepsFromThread(After(s, labels, n), labels[n].t, labels[n].act);
    RecordedAtReturn(After(s, labels, n), labels[n].t, labels[n].act);
  }

  lemma StepsFromThread(s: Sys, t: Tid, act: Act)
    requires Next(s, t, act).Some?
    ensures t in s.pcs && (s.pcs[t] == Ready <==> !act.Go?)
  {
    hide Free, Enumerates, InsertNode;
  }

  /** The record only grows. */
  lemma {:induction false} RecordGrows(s: Sys, labels: seq<Label>, m: nat, n: nat)
    requires m <= n <= |labels| && Execute(s, labels).Some?
    ensures After(s, labels, m).hist <= After(s, labels, n).hist
    decreases n
  {
    hide Execute, After;
    if m < n {
      RecordGrows(s, labels, m, n - 1);
      AfterStep(s, labels, n - 1);
    }
  }

  /** The call that thread `labels[j].t` makes in step j returns in step k. */
  ghost predicate Spans(s: Sys, labels: seq<Label>, j: nat, k: nat)
    requires Execute(s, labels).Some?
  {
    && j <= k < |labels| && !labels[j].act.Go?
    && var t := labels[j].t;
    && (forall n :: j < n <= k ==> t in After(s, labels, n).pcs && After(s, labels, n).pcs[t] != Ready)
    && t in After(s, labels, k + 1).pcs && After(s, labels, k + 1).pcs[t] == Ready
  }

  /** Whoever takes the step, a thread at work on a call stays with it until it is recorded. */
  lemma StillServes(s: Sys, l: Label, t: Tid, call: Act, s': Sys)
    requires Next(s, l.t, l.act) == Some(s') && l.t in s.pcs && Recorded(s, l.t, l.act, s')
    requires t in s.pcs && Serves(s.pcs[t], call)
    ensures Serving(s, t, call, s')
  {
    hide Next, RecordOf;
    if l.t == t {
      StepsFromThread(s, t, l.act);
      NextServes(s, t, l.act, call);
    }
  }

  /** Until it returns, the thread is at work on its call; when it does, the call is recorded. */
  lemma {:induction false} ServesUntilReturn(s: Sys, labels: seq<Label>, j: nat, k: nat, n: nat)
    requires Execute(s, labels).Some? && Spans(s, labels, j, k) && j <= n <= k
    ensures Serving(After(s, labels, n), labels[j].t, labels[j].act, After(s, labels, n + 1))
    decreases n
  {
    hide Execute, After, Next, Serves, Answers, Recorded;
    AfterStep(s, labels, n);
    if n == j {
      NextServes(After(s, labels, n), labels[j].t, labels[j].act, labels[j].act);
    } else {
      ServesUntilReturn(s, labels, j, k, n - 1);
      StillServes(After(s, labels, n), labels[n], labels[j].t, labels[j].act, After(s, labels, n + 1));
    }
  }

  /** Where in the record the call that returns in step k stands. */
  ghost function PlaceOf(s: Sys, labels: seq<Label>, k: nat): nat
    requires Execute(s, labels).Some? && k <= |labels|
  {
    |After(s, labels, k).hist|
  }

  lemma CallIsRecorded(s: Sys, labels: seq<Label>, j: nat, k: nat)
    requires Execute(s, labels).Some? && Spans(s, labels, j, k)
    ensures var place, hist := PlaceOf(s, labels, k), Execute(s, labels).value.hist;
      && place < PlaceOf(s, labels, k + 1) <= |hist|
      && Answers(hist[place], labels[j].act)
  {
    ServesUntilReturn(s, labels, j, k, k);
    RecordGrows(s, labels, k + 1, |labels|);
    assert labels[..|labels|] == labels;
    hide Answers, Execute, Recorded, Serves;
  }

  /** The record agrees with the order of calls that do not overlap: if one call returns before
      another is made, by whatever threads, both are recorded and the first stands before the
      second. */
  lemma RecordKeepsCallOrder(s: Sys, labels: seq<Label>, j: nat, k: nat, j': nat, k': nat)
    requires Execute(s, labels).Some?
    requires Spans(s, labels, j, k) && Spans(s, labels, j', k') && k < j'
    ensures var hist, m, n := Execute(s, labels).value.hist, PlaceOf(s, labels, k), PlaceOf(s, labels, k');
      m < n < |hist| && Answers(hist[m], labels[j].act) && Answers(hist[n], labels[j'].act)
  {
    CallIsRecorded(s, labels, j, k);
    CallIsRecorded(s, labels, j', k');
    RecordGrows(s, labels, k + 1, k');
  }

  // ----- progress

  /** Whoever is inside can always take its next step. */
  lemma InsideCanStep(s: Sys, w: World<Pid>, t: Tid)
    requires Inv(s, w) && t in s.pcs && s.pcs[t].Inside()
    ensures Next(s, t, Go([])).Some?
  {
    InsideIsHolder(s, w, t);
    hide Inv, ProxyOk, Fetched, Release;
  }

  /** No interleaving gets stuck: while any operation is in flight, some thread can step. */
  lemma SomeoneCanStep(s: Sys, w: World<Pid>, t: Tid) returns (u: Tid, act: Act)
    requires Inv(s, w) && t in s.pcs && s.pcs[t] != Ready
    ensures Next(s, u, act).Some?
  {
    if s.mutex.Some? {
      u, act := s.mutex.value, Go([]);
      InsideCanStep(s, w, u);
    } else {
      assert !s.pcs[t].Inside();
      var visits := PoolLaws.EnumerationExists(s.maps.idle.Keys);
      u, act := t, Go(visits);
    }
  }
}
