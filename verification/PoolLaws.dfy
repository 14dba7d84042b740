/** What the pool keeps over every run of its operations. */
module PoolLaws {
  import opened Options
  import opened PoolModel

  // ----- conservation, over all runs

  /** No connection is both idle and busy, none is lost, and every key still owns what it owned. */
  ghost predicate Conserved<P>(w: World<P>, connections: map<Address, Owned>)
  {
    w.maps.idle.Keys !! w.maps.busy.Keys && w.maps.idle + w.maps.busy == connections
  }

  lemma TakeConserves(m: Maps, visits: seq<Visit>)
    requires m.idle.Keys !! m.busy.Keys
    ensures var m' := Take(m, visits); m'.idle.Keys !! m'.busy.Keys && m'.idle + m'.busy == m.idle + m.busy
  {
  }

  lemma ReleaseConserves(m: Maps, conn: Option<Address>)
    requires m.idle.Keys !! m.busy.Keys
    ensures var m' := Release(m, conn); m'.idle.Keys !! m'.busy.Keys && m'.idle + m'.busy == m.idle + m.busy
  {
  }

  lemma StepConserves<P>(w: World<P>, op: Op<P>, connections: map<Address, Owned>)
    requires Conserved(w, connections) && Enabled(w, op)
    ensures Conserved(Apply(w, op), connections)
  {
    match op
    case Get(_, visits) => TakeConserves(w.maps, visits);
    case Destroy(p) => ReleaseConserves(w.maps, w.proxies[p].conn);
    case ReleaseProxy(p) => ReleaseConserves(w.maps, w.proxies[p].conn);
    case _ =>
  }

  lemma DisjointSize(idle: map<Address, Owned>, busy: map<Address, Owned>)
    requires idle.Keys !! busy.Keys
    ensures |idle| + |busy| == |idle + busy|
  {
    assert (idle + busy).Keys == idle.Keys + busy.Keys;
  }

  /** Over every run, explicit and repeated releases included: no connection is lost or doubled,
      and the size is constant in every state. */
  lemma {:induction false} RunConserves<P>(connections: map<Address, Owned>, ops: seq<Op<P>>)
    requires Feasible(Fresh(connections), ops)
    ensures var w := Run(Fresh(connections), ops);
      Conserved(w, connections) && |w.maps.idle| + |w.maps.busy| == |connections|
    decreases |ops|
  {
    var w := Run(Fresh(connections), ops);
    if ops == [] {
      assert connections + map[] == connections;
    } else {
      var n := |ops| - 1;
      RunConserves(connections, ops[..n]);
      StepConserves(Run(Fresh(connections), ops[..n]), ops[n], connections);
    }
    DisjointSize(w.maps.idle, w.maps.busy);
  }

  // ----- who holds what

  ghost predicate Holds<P>(w: World<P>, p: P, c: Address)
  {
    p in w.proxies && w.proxies[p].conn == Some(c)
  }

  /** The connections of live proxies that were not released explicitly. */
  ghost function Held<P>(w: World<P>): set<Address>
  {
    set p | p in w.proxies && p !in w.stale && w.proxies[p].conn.Some? :: w.proxies[p].conn.value
  }

  /** No two live proxies point to the same connection. */
  ghost predicate Distinct<P>(w: World<P>)
  {
    forall p, q :: p in w.proxies && q in w.proxies && p != q && w.proxies[p].conn.Some?
      ==> w.proxies[p].conn != w.proxies[q].conn
  }

  /** Proxies point to the pool exactly when they point to a connection. */
  ghost predicate WellFormed<P>(w: World<P>)
  {
    && w.maps.idle.Keys !! w.maps.busy.Keys
    && (forall p :: p in w.proxies ==> (w.proxies[p].pool <==> w.proxies[p].conn.Some?))
    && (forall p :: p in w.stale ==> p in w.proxies && w.proxies[p].conn.Some?)
  }

  ghost predicate ReleasedAreIdle<P>(w: World<P>)
    requires WellFormed(w)
  {
    forall p :: p in w.stale ==> w.proxies[p].conn.value in w.maps.idle
  }

  ghost predicate HoldersAreBusy<P>(w: World<P>)
  {
    forall p :: p in w.proxies && p !in w.stale && w.proxies[p].conn.Some?
      ==> w.proxies[p].conn.value in w.maps.busy && w.proxies[p].conn.value !in w.orphaned
  }

  ghost predicate BusyAreAccounted<P>(w: World<P>)
  {
    && w.orphaned <= w.maps.busy.Keys
    && forall c :: c in w.maps.busy ==> c in w.orphaned || c in Held(w)
  }

  /** The books balance: a busy connection belongs to one proxy or was orphaned, an idle one at
      most to a proxy that was released. */
  ghost predicate Accounted<P>(w: World<P>)
  {
    && WellFormed(w) && Distinct(w)
    && ReleasedAreIdle(w) && HoldersAreBusy(w) && BusyAreAccounted(w)
  }

  lemma HolderIsHeld<P>(w: World<P>, p: P)
    requires p in w.proxies && p !in w.stale && w.proxies[p].conn.Some?
    ensures w.proxies[p].conn.value in Held(w)
  {
  }

  lemma HeldBy<P>(w: World<P>, c: Address) returns (p: P)
    requires c in Held(w)
    ensures Holds(w, p, c) && p !in w.stale
  {
    p :| p in w.proxies && p !in w.stale && w.proxies[p].conn.Some? && w.proxies[p].conn.value == c;
  }

  /** The get hands out no connection that a live proxy still points to. */
  ghost predicate HandsOutUnheld<P>(w: World<P>, op: Op<P>)
  {
    op.Get? ==> var c := Taken(w.maps, op.visits); c.Some? ==> forall p :: !(p in w.proxies && Holds(w, p, c.value))
  }

  // ----- the effect of each operation, proxy by proxy

  lemma MovedView<P>(w: World<P>, p: P, src: P)
    requires src in w.proxies && p != src
    ensures var w' := Moved(w, p, src);
      && (forall q :: q in w'.proxies <==> q in w.proxies || q == p)
      && (forall q :: q in w'.proxies ==>
            w'.proxies[q] == if q == src then EMPTY else if q == p then w.proxies[src] else w.proxies[q])
      && (forall q :: q in w'.stale <==> if q == p then src in w.stale else q != src && q in w.stale)
      && w'.maps == w.maps && w'.orphaned == w.orphaned
  {
  }

  lemma AssignedView<P>(w: World<P>, p: P, src: P)
    requires p in w.proxies && src in w.proxies && p != src
    ensures var w', w'' := Moved(w, p, src), Apply(w, MoveAssign(p, src));
      && w''.maps == w'.maps && w''.proxies == w'.proxies && w''.stale == w'.stale
      && w''.orphaned == w'.orphaned
         + if w.proxies[p].conn.Some? && p !in w.stale then {w.proxies[p].conn.value} else {}
  {
  }

  lemma MoveKeepsForm<P>(w: World<P>, p: P, src: P)
    requires src in w.proxies && p != src && WellFormed(w) && Distinct(w)
    ensures WellFormed(Moved(w, p, src)) && Distinct(Moved(w, p, src))
  {
    MovedView(w, p, src);
  }

  /** A move changes who holds a connection; only the one its target held is no longer held. */
  lemma MoveHeld<P>(w: World<P>, p: P, src: P, c: Address)
    requires src in w.proxies && p != src && c in Held(w)
    requires !(p in w.proxies && p !in w.stale && Holds(w, p, c))
    ensures c in Held(Moved(w, p, src))
  {
    var q := HeldBy(w, c);
    MovedView(w, p, src);
    HolderIsHeld(Moved(w, p, src), if q == src then p else q);
  }

  /** Released and unreleased holders alike stand where the proxy they were moved from stood. */
  lemma MoveKeepsHolders<P>(w: World<P>, p: P, src: P)
    requires Accounted(w) && src in w.proxies && p != src
    ensures WellFormed(Moved(w, p, src)) && ReleasedAreIdle(Moved(w, p, src)) && HoldersAreBusy(Moved(w, p, src))
  {
    hide Held, BusyAreAccounted;
    MoveKeepsForm(w, p, src);
    MovedView(w, p, src);
  }

  lemma MoveConstructAccounted<P>(w: World<P>, p: P, src: P)
    requires Accounted(w) && Enabled(w, MoveConstruct(p, src))
    ensures Accounted(Moved(w, p, src))
  {
    hide Moved, Held, Distinct, WellFormed, HoldersAreBusy, ReleasedAreIdle;
    MoveKeepsForm(w, p, src);
    MoveKeepsHolders(w, p, src);
    MovedView(w, p, src);
    var w' := Moved(w, p, src);
    forall c | c in w'.maps.busy && c !in w'.orphaned
      ensures c in Held(w')
    {
      MoveHeld(w, p, src, c);
    }
  }

  /** After a move-assignment no proxy points to what the target held. */
  lemma OverwrittenIsDropped<P>(w: World<P>, p: P, src: P, q: P)
    requires Distinct(w) && p in w.proxies && src in w.proxies && p != src && w.proxies[p].conn.Some?
    requires q in Moved(w, p, src).proxies
    ensures Moved(w, p, src).proxies[q].conn != w.proxies[p].conn
  {
    MovedView(w, p, src);
  }

  lemma MoveAssignKeepsHolders<P>(w: World<P>, p: P, src: P)
    requires Accounted(w) && Enabled(w, MoveAssign(p, src)) && p != src
    ensures HoldersAreBusy(Apply(w, MoveAssign(p, src)))
  {
    hide Moved, Apply, Held, BusyAreAccounted, ReleasedAreIdle, WellFormed, Distinct;
    MoveKeepsHolders(w, p, src);
    AssignedView(w, p, src);
    var w'' := Apply(w, MoveAssign(p, src));
    forall q | q in w''.proxies && q !in w''.stale && w''.proxies[q].conn.Some?
      ensures w''.proxies[q].conn.value in w''.maps.busy && w''.proxies[q].conn.value !in w''.orphaned
    {
      if w.proxies[p].conn.Some? {
        OverwrittenIsDropped(w, p, src, q);
      }
    }
  }

  /** The connection that is no longer held becomes an orphan. */
  lemma MoveAssignKeepsBusy<P>(w: World<P>, p: P, src: P)
    requires Accounted(w) && Enabled(w, MoveAssign(p, src)) && p != src
    ensures BusyAreAccounted(Apply(w, MoveAssign(p, src)))
  {
    hide Moved, Apply, Held, ReleasedAreIdle, Distinct;
    MovedView(w, p, src);
    AssignedView(w, p, src);
    var w', w'' := Moved(w, p, src), Apply(w, MoveAssign(p, src));
    forall c | c in w''.maps.busy && c !in w''.orphaned
      ensures c in Held(w'')
    {
      MoveHeld(w, p, src, c);
      var q := HeldBy(w', c);
      HolderIsHeld(w'', q);
    }
  }

  lemma MoveAssignAccounted<P>(w: World<P>, p: P, src: P)
    requires Accounted(w) && Enabled(w, MoveAssign(p, src)) && p != src
    ensures Accounted(Apply(w, MoveAssign(p, src)))
  {
    hide Moved, Apply, Held, HoldersAreBusy, BusyAreAccounted;
    MoveKeepsForm(w, p, src);
    MoveKeepsHolders(w, p, src);
    AssignedView(w, p, src);
    MoveAssignKeepsHolders(w, p, src);
    MoveAssignKeepsBusy(w, p, src);
  }

  /** A get moves at most the one connection it hands out. */
  lemma TakeView(m: Maps, visits: seq<Visit>)
    requires m.idle.Keys !! m.busy.Keys && Enumerates(visits, m.idle.Keys)
    ensures var c := Taken(m, visits);
      && (c.Some? ==> c.value in m.idle)
      && Take(m, visits) ==
         if c.Some? then Maps(m.idle - {c.value}, m.busy[c.value := m.idle[c.value]]) else m
  {
  }

  lemma GetAccounted<P>(w: World<P>, p: P, visits: seq<Visit>)
    requires Accounted(w) && Enabled(w, Get(p, visits)) && HandsOutUnheld(w, Get(p, visits))
    ensures Accounted(Apply(w, Get(p, visits)))
  {
    TakeView(w.maps, visits);
    GetKeepsForm(w, p, visits);
    GetKeepsReleased(w, p, visits);
    GetKeepsHolders(w, p, visits);
    GetKeepsBusy(w, p, visits);
  }

  /** A get, seen from the books. */
  lemma GetView<P>(w: World<P>, p: P, visits: seq<Visit>)
    requires w.maps.idle.Keys !! w.maps.busy.Keys && Enabled(w, Get(p, visits))
    ensures var w', c := Apply(w, Get(p, visits)), Taken(w.maps, visits);
      && w'.stale == w.stale && w'.orphaned == w.orphaned && p !in w.proxies
      && w'.proxies == w.proxies[p := Proxy(c.Some?, c)]
      && (c.Some? ==>
            && c.value in w.maps.idle
            && w'.maps.idle.Keys == w.maps.idle.Keys - {c.value}
            && w'.maps.busy.Keys == w.maps.busy.Keys + {c.value})
      && (c == None ==> w'.maps == w.maps)
  {
    TakeView(w.maps, visits);
    hide Take, Taken, Enumerates;
  }

  lemma GetKeepsReleased<P>(w: World<P>, p: P, visits: seq<Visit>)
    requires Accounted(w) && Enabled(w, Get(p, visits)) && HandsOutUnheld(w, Get(p, visits))
    ensures var w' := Apply(w, Get(p, visits)); WellFormed(w') && ReleasedAreIdle(w')
  {
    hide Apply, Taken, Enumerates, HandsOutUnheld, Distinct, BusyAreAccounted, HoldersAreBusy;
    GetKeepsForm(w, p, visits);
    GetView(w, p, visits);
    HandedOutIsNew(w, p, visits);
  }

  lemma GetKeepsHolders<P>(w: World<P>, p: P, visits: seq<Visit>)
    requires Accounted(w) && Enabled(w, Get(p, visits))
    ensures HoldersAreBusy(Apply(w, Get(p, visits)))
  {
    hide Apply, Taken, Enumerates, Distinct, ReleasedAreIdle, Held;
    GetView(w, p, visits);
  }

  lemma HandedOutIsNew<P>(w: World<P>, p: P, visits: seq<Visit>)
    requires WellFormed(w) && HandsOutUnheld(w, Get(p, visits))
    ensures var c := Taken(w.maps, visits);
      c.Some? ==> forall q :: q in w.proxies ==> w.proxies[q].conn != c
  {
    var c := Taken(w.maps, visits);
    forall q | q in w.proxies && c.Some?
      ensures w.proxies[q].conn != c
    {
      assert !Holds(w, q, c.value);
    }
  }

  lemma GetKeepsBusy<P>(w: World<P>, p: P, visits: seq<Visit>)
    requires Accounted(w) && Enabled(w, Get(p, visits))
    ensures BusyAreAccounted(Apply(w, Get(p, visits)))
  {
    TakeView(w.maps, visits);
    hide Take, Taken, Enumerates, Distinct, ReleasedAreIdle, HoldersAreBusy;
    var w' := Apply(w, Get(p, visits));
    forall b | b in w'.maps.busy && b !in w'.orphaned
      ensures b in Held(w')
    {
      if b in w.maps.busy {
        var q := HeldBy(w, b);
        HolderIsHeld(w', q);
      } else {
        HolderIsHeld(w', p);
      }
    }
  }

  lemma GetKeepsForm<P>(w: World<P>, p: P, visits: seq<Visit>)
    requires WellFormed(w) && Distinct(w) && Enabled(w, Get(p, visits)) && HandsOutUnheld(w, Get(p, visits))
    ensures WellFormed(Apply(w, Get(p, visits))) && Distinct(Apply(w, Get(p, visits)))
  {
    var c := Taken(w.maps, visits);
    assert Apply(w, Get(p, visits)).proxies == w.proxies[p := Proxy(c.Some?, c)];
    HandedOutIsNew(w, p, visits);
    TakeView(w.maps, visits);
    hide Take, Taken, Enumerates, HandsOutUnheld;
  }

  /** Taking a connection back, seen from the maps. */
  lemma ReleaseView(m: Maps, conn: Option<Address>)
    requires m.idle.Keys !! m.busy.Keys
    ensures var m' := Release(m, conn);
      if conn.Some? && conn.value in m.busy
      then m'.busy.Keys == m.busy.Keys - {conn.value} && m'.idle.Keys == m.idle.Keys + {conn.value}
      else m' == m
  {
  }

  /** Destroying and releasing a proxy, seen from the books. */
  lemma EndView<P>(w: World<P>, op: Op<P>)
    requires WellFormed(w) && Enabled(w, op) && (op.Destroy? || op.ReleaseProxy?)
    ensures var w', conn := Apply(w, op), w.proxies[op.p].conn;
      && w'.maps == Release(w.maps, conn) && w'.orphaned == w.orphaned
      && w'.proxies == (if op.Destroy? then w.proxies - {op.p} else w.proxies)
      && w'.stale == (if op.Destroy? then w.stale - {op.p}
                      else if conn.Some? then w.stale + {op.p} else w.stale)
  {
  }

  lemma EndKeepsForm<P>(w: World<P>, op: Op<P>)
    requires WellFormed(w) && Enabled(w, op) && (op.Destroy? || op.ReleaseProxy?)
    ensures WellFormed(Apply(w, op))
  {
    hide Release, Apply;
    EndView(w, op);
    ReleaseView(w.maps, w.proxies[op.p].conn);
  }

  lemma EndKeepsDistinct<P>(w: World<P>, op: Op<P>)
    requires WellFormed(w) && Distinct(w) && Enabled(w, op) && (op.Destroy? || op.ReleaseProxy?)
    ensures Distinct(Apply(w, op))
  {
    hide Release, Apply;
    EndView(w, op);
  }

  lemma EndKeepsReleased<P>(w: World<P>, op: Op<P>)
    requires Accounted(w) && Enabled(w, op) && (op.Destroy? || op.ReleaseProxy?)
    ensures WellFormed(Apply(w, op)) && ReleasedAreIdle(Apply(w, op))
  {
    hide Release, Apply, Held, BusyAreAccounted, Distinct;
    EndKeepsForm(w, op);
    EndView(w, op);
    ReleaseView(w.maps, w.proxies[op.p].conn);
  }

  lemma EndKeepsHolders<P>(w: World<P>, op: Op<P>)
    requires Accounted(w) && Enabled(w, op) && (op.Destroy? || op.ReleaseProxy?)
    ensures HoldersAreBusy(Apply(w, op))
  {
    hide Release, Apply, Held, BusyAreAccounted, ReleasedAreIdle;
    EndView(w, op);
    ReleaseView(w.maps, w.proxies[op.p].conn);
  }

  lemma EndKeepsBusy<P>(w: World<P>, op: Op<P>)
    requires Accounted(w) && Enabled(w, op) && (op.Destroy? || op.ReleaseProxy?)
    ensures BusyAreAccounted(Apply(w, op))
  {
    hide Release, Apply, Held, Distinct;
    EndView(w, op);
    ReleaseView(w.maps, w.proxies[op.p].conn);
    var w' := Apply(w, op);
    forall c | c in w'.maps.busy && c !in w'.orphaned
      ensures c in Held(w')
    {
      var q := HeldBy(w, c);
      assert q != op.p;
      HolderIsHeld(w', q);
    }
  }

  lemma EndAccounted<P>(w: World<P>, op: Op<P>)
    requires Accounted(w) && Enabled(w, op) && (op.Destroy? || op.ReleaseProxy?)
    ensures Accounted(Apply(w, op))
  {
    hide Apply, WellFormed, Distinct, ReleasedAreIdle, HoldersAreBusy, BusyAreAccounted;
    EndKeepsDistinct(w, op);
    EndKeepsReleased(w, op);
    EndKeepsHolders(w, op);
    EndKeepsBusy(w, op);
  }

  lemma StepAccounted<P>(w: World<P>, op: Op<P>)
    requires Accounted(w) && Enabled(w, op) && HandsOutUnheld(w, op)
    ensures Accounted(Apply(w, op))
  {
    hide Accounted;
    match op
    case Get(p, visits) => GetAccounted(w, p, visits);
    case MoveConstruct(p, src) => MoveConstructAccounted(w, p, src);
    case MoveAssign(p, src) => if p != src { MoveAssignAccounted(w, p, src); }
    case Destroy(_) => EndAccounted(w, op);
    case ReleaseProxy(_) => EndAccounted(w, op);
    case _ =>
  }

  // ----- whole runs

  lemma RunSnoc<P>(w: World<P>, ops: seq<Op<P>>, op: Op<P>)
    requires Feasible(w, ops) && Enabled(Run(w, ops), op)
    ensures Feasible(w, ops + [op]) && Run(w, ops + [op]) == Apply(Run(w, ops), op)
  {
    assert (ops + [op])[..|ops|] == ops;
  }

  /** No get of the run hands out a connection that a live proxy still points to. */
  ghost predicate Careful<P>(w: World<P>, ops: seq<Op<P>>)
    requires Feasible(w, ops)
    decreases |ops|
  {
    ops == [] ||
    (var n := |ops| - 1; Careful(w, ops[..n]) && HandsOutUnheld(Run(w, ops[..n]), ops[n]))
  }

  ghost predicate AlwaysDistinct<P>(w: World<P>, ops: seq<Op<P>>)
    requires Feasible(w, ops)
    decreases |ops|
  {
    Distinct(Run(w, ops)) && (ops == [] || AlwaysDistinct(w, ops[..|ops| - 1]))
  }

  lemma {:induction false} CarefulRunAccounted<P>(connections: map<Address, Owned>, ops: seq<Op<P>>)
    requires Feasible(Fresh(connections), ops) && Careful(Fresh(connections), ops)
    ensures Accounted(Run(Fresh(connections), ops))
    decreases |ops|
  {
    if ops != [] {
      var n := |ops| - 1;
      CarefulRunAccounted(connections, ops[..n]);
      StepAccounted(Run(Fresh(connections), ops[..n]), ops[n]);
    }
  }

  /** The books of any careful run, explicit releases included: the busy connections are those
      held by proxies that were not released together with the orphaned ones, and exactly the
      former make their proxies valid. */
  lemma {:induction false} CarefulRun<P>(connections: map<Address, Owned>, ops: seq<Op<P>>)
    requires Feasible(Fresh(connections), ops) && Careful(Fresh(connections), ops)
    ensures var w := Run(Fresh(connections), ops);
      && w.maps.busy.Keys == Held(w) + w.orphaned && Held(w) !! w.orphaned
      && Distinct(w)
      && (forall p :: p in w.proxies ==>
            (IsValid(w.maps, w.proxies[p]) <==> w.proxies[p].conn.Some? && p !in w.stale))
  {
    CarefulRunAccounted(connections, ops);
    var w := Run(Fresh(connections), ops);
    BooksBalance(w);
  }

  lemma BooksBalance<P>(w: World<P>)
    requires Accounted(w)
    ensures w.maps.busy.Keys == Held(w) + w.orphaned && Held(w) !! w.orphaned
    ensures forall p :: p in w.proxies ==>
              (IsValid(w.maps, w.proxies[p]) <==> w.proxies[p].conn.Some? && p !in w.stale)
  {
    forall c | c in Held(w)
      ensures c in w.maps.busy && c !in w.orphaned
    {
      var p := HeldBy(w, c);
    }
  }

  /** Handing out a connection that a live proxy points to is the only way to double it. */
  lemma {:induction false} DistinctExactly<P>(connections: map<Address, Owned>, ops: seq<Op<P>>)
    requires Feasible(Fresh(connections), ops)
    ensures AlwaysDistinct(Fresh(connections), ops) <==> Careful(Fresh(connections), ops)
    decreases |ops|
  {
    var w0: World<P> := Fresh(connections);
    if ops != [] {
      var n := |ops| - 1;
      var w := Run(w0, ops[..n]);
      DistinctExactly(connections, ops[..n]);
      if Careful(w0, ops) {
        CarefulRunAccounted(connections, ops);
      } else if Careful(w0, ops[..n]) {
        DoublesHeld(w, ops[n]);
      }
    }
  }

  lemma DoublesHeld<P>(w: World<P>, op: Op<P>)
    requires Enabled(w, op) && !HandsOutUnheld(w, op)
    ensures !Distinct(Apply(w, op))
  {
    var c := Taken(w.maps, op.visits);
    var q :| q in w.proxies && Holds(w, q, c.value);
    assert Apply(w, op).proxies[q].conn == Apply(w, op).proxies[op.p].conn;
  }

  /** Without explicit releases every run is careful, so the busy connections are exactly the
      disjoint union of those held by live proxies and those orphaned by assignments, and every
      proxy that points to a connection is valid and its only holder. */
  lemma {:induction false} RunWithoutRelease<P>(connections: map<Address, Owned>, ops: seq<Op<P>>)
    requires Feasible(Fresh(connections), ops)
    requires forall i :: 0 <= i < |ops| ==> !ops[i].ReleaseProxy?
    ensures Careful(Fresh(connections), ops)
    ensures var w := Run(Fresh(connections), ops);
      && w.stale == {}
      && w.maps.busy.Keys == Held(w) + w.orphaned && Held(w) !! w.orphaned
      && Distinct(w)
      && (forall p :: p in w.proxies ==> (IsValid(w.maps, w.proxies[p]) <==> w.proxies[p].conn.Some?))
    decreases |ops|
  {
    if ops != [] {
      var n := |ops| - 1;
      RunWithoutRelease(connections, ops[..n]);
      CarefulRunAccounted(connections, ops[..n]);
      GetIsUnheld(Run(Fresh(connections), ops[..n]), ops[n]);
    }
    CarefulRun(connections, ops);
  }

  /** With no released proxy around, an idle connection has no holder. */
  lemma GetIsUnheld<P>(w: World<P>, op: Op<P>)
    requires Accounted(w) && Enabled(w, op) && w.stale == {}
    ensures HandsOutUnheld(w, op)
  {
    if op.Get? {
      var c := Taken(w.maps, op.visits);
      assert c.Some? ==> c.value in w.maps.idle;
    }
  }

  // ----- when a get is safe

  function Works(c: Address): Visit
  {
    Visit(c, Probe(Returns(true), Returns(true)))
  }

  lemma {:induction false} EnumerationExists(keys: set<Address>) returns (visits: seq<Visit>)
    ensures Enumerates(visits, keys)
  {
    if keys == {} {
      visits := [];
    } else {
      var c :| c in keys;
      var rest := EnumerationExists(keys - {c});
      visits := rest + [Works(c)];
      forall k | k in keys
        ensures exists i :: 0 <= i < |visits| && visits[i].conn == k
      {
        if k == c {
          assert visits[|rest|].conn == k;
        } else {
          assert k in keys - {c};
          var i :| 0 <= i < |rest| && rest[i].conn == k;
          assert visits[i].conn == k;
        }
      }
    }
  }

  /** Some iteration order begins with `c` and finds it working. */
  lemma EnumerationFrom(keys: set<Address>, c: Address) returns (visits: seq<Visit>)
    requires c in keys
    ensures Enumerates(visits, keys) && visits != [] && visits[0] == Works(c)
  {
    var rest := EnumerationExists(keys - {c});
    visits := [Works(c)] + rest;
    forall k | k in keys
      ensures exists i :: 0 <= i < |visits| && visits[i].conn == k
    {
      if k == c {
        assert visits[0].conn == k;
      } else {
        assert k in keys - {c};
        var i :| 0 <= i < |rest| && rest[i].conn == k;
        assert visits[i + 1].conn == k;
      }
    }
  }

  /** Whatever the iteration order and the answers to the checks, the get leaves live proxies
      with distinct connections. */
  ghost predicate SafeGet<P>(w: World<P>, p: P)
  {
    forall visits :: Enumerates(visits, w.maps.idle.Keys) ==> Distinct(Apply(w, Get(p, visits)))
  }

  /** A get is safe exactly when no explicitly released proxy is still live; a caller can tell by
      asking the live proxies that point to a connection whether they are valid. */
  lemma {:induction false} SafeGetExactly<P>(w: World<P>, p: P)
    requires Accounted(w) && p !in w.proxies
    ensures SafeGet(w, p) <==> w.stale == {}
    ensures w.stale == {} <==>
            forall q :: q in w.proxies && w.proxies[q].conn.Some? ==> IsValid(w.maps, w.proxies[q])
  {
    BooksBalance(w);
    if w.stale == {} {
      forall visits | Enumerates(visits, w.maps.idle.Keys)
        ensures Distinct(Apply(w, Get(p, visits)))
      {
        GetIsUnheld(w, Get(p, visits));
        StepAccounted(w, Get(p, visits));
      }
    } else {
      StaleGetDoubles(w, p);
    }
  }

  lemma StaleGetDoubles<P>(w: World<P>, p: P)
    requires Accounted(w) && p !in w.proxies && w.stale != {}
    ensures !SafeGet(w, p)
    ensures exists q :: q in w.proxies && w.proxies[q].conn.Some? && !IsValid(w.maps, w.proxies[q])
  {
    var q :| q in w.stale;
    var c := w.proxies[q].conn.value;
    var visits := EnumerationFrom(w.maps.idle.Keys, c);
    assert Taken(w.maps, visits) == Some(c);
    assert Holds(w, q, c);
    DoublesHeld(w, Get(p, visits));
  }

  /** Every get of the run meets no live proxy that was released explicitly. */
  ghost predicate GetsMeetNoReleased<P>(w: World<P>, ops: seq<Op<P>>)
    requires Feasible(w, ops)
    decreases |ops|
  {
    ops == [] ||
    (var n := |ops| - 1; GetsMeetNoReleased(w, ops[..n]) && (ops[n].Get? ==> Run(w, ops[..n]).stale == {}))
  }

  /** Every get of the run is safe where it is called. */
  ghost predicate GetsAreSafe<P>(w: World<P>, ops: seq<Op<P>>)
    requires Feasible(w, ops)
    decreases |ops|
  {
    ops == [] ||
    (var n := |ops| - 1; GetsAreSafe(w, ops[..n]) && (ops[n].Get? ==> SafeGet(Run(w, ops[..n]), ops[n].p)))
  }

  /** The gets of a run are safe exactly when each is called with no explicitly released proxy
      alive. Such a run doubles no connection, and its books balance. */
  lemma {:induction false} SafeRunExactly<P>(connections: map<Address, Owned>, ops: seq<Op<P>>)
    requires Feasible(Fresh(connections), ops)
    ensures GetsAreSafe(Fresh(connections), ops) <==> GetsMeetNoReleased(Fresh(connections), ops)
    ensures GetsMeetNoReleased(Fresh(connections), ops) ==>
              Careful(Fresh(connections), ops) && AlwaysDistinct(Fresh(connections), ops)
    decreases |ops|
  {
    hide Accounted, Apply, Enabled, Distinct, Fresh, HandsOutUnheld, SafeGet;
    var w0: World<P> := Fresh(connections);
    DistinctExactly(connections, ops);
    if ops != [] {
      var n := |ops| - 1;
      SafeRunExactly(connections, ops[..n]);
      if GetsMeetNoReleased(w0, ops[..n]) {
        CarefulRunAccounted(connections, ops[..n]);
        SafeStep(Run(w0, ops[..n]), ops[n]);
      }
    }
  }

  lemma SafeStep<P>(w: World<P>, op: Op<P>)
    requires Accounted(w) && Enabled(w, op)
    ensures op.Get? ==> (SafeGet(w, op.p) <==> w.stale == {})
    ensures (op.Get? ==> w.stale == {}) ==> HandsOutUnheld(w, op)
  {
    if op.Get? {
      SafeGetExactly(w, op.p);
      if w.stale == {} {
        GetIsUnheld(w, op);
      }
    }
  }

  // ----- connections that never come back

  /** A busy connection that no live proxy points to. */
  ghost predicate Unreachable<P>(w: World<P>, c: Address)
  {
    && w.maps.idle.Keys !! w.maps.busy.Keys && c in w.maps.busy
    && forall p :: p in w.proxies ==> w.proxies[p].conn != Some(c)
  }

  lemma MoveKeepsUnreachable<P>(w: World<P>, p: P, src: P, c: Address)
    requires Unreachable(w, c) && src in w.proxies && p != src
    ensures Unreachable(Moved(w, p, src), c)
  {
    MovedView(w, p, src);
  }

  lemma StepKeepsUnreachable<P>(w: World<P>, op: Op<P>, c: Address)
    requires Unreachable(w, c) && Enabled(w, op)
    ensures Unreachable(Apply(w, op), c)
  {
    hide Take, Taken, Release, Moved, Enumerates, InsertNode;
    match op
    case Get(_, visits) => TakeView(w.maps, visits);
    case MoveConstruct(p, src) => MoveKeepsUnreachable(w, p, src, c);
    case MoveAssign(p, src) => if p != src { MoveKeepsUnreachable(w, p, src, c); }
    case Destroy(p) => ReleaseView(w.maps, w.proxies[p].conn);
    case ReleaseProxy(p) => ReleaseView(w.maps, w.proxies[p].conn);
    case _ =>
  }

  lemma {:induction false} RunKeepsUnreachable<P>(w: World<P>, ops: seq<Op<P>>, c: Address)
    requires Unreachable(w, c) && Feasible(w, ops)
    ensures Unreachable(Run(w, ops), c)
    decreases |ops|
  {
    hide Unreachable, Apply, Enabled;
    if ops != [] {
      var n := |ops| - 1;
      RunKeepsUnreachable(w, ops[..n], c);
      StepKeepsUnreachable(Run(w, ops[..n]), ops[n], c);
    }
  }

  /** A busy connection is lost to the pool for ever exactly when no live proxy points to it. */
  lemma {:induction false} BusyForeverExactly<P>(w: World<P>, c: Address)
    requires w.maps.idle.Keys !! w.maps.busy.Keys && c in w.maps.busy
    ensures (forall ops :: Feasible(w, ops) ==> c in Run(w, ops).maps.busy) <==>
            forall p :: p in w.proxies ==> w.proxies[p].conn != Some(c)
  {
    if p :| p in w.proxies && w.proxies[p].conn == Some(c) {
      var ops := [ReleaseProxy(p)];
      assert ops == [] + ops;
      RunSnoc(w, [], ReleaseProxy(p));
      ReleaseView(w.maps, Some(c));
      assert c !in Run(w, ops).maps.busy;
    } else {
      forall ops | Feasible(w, ops)
        ensures c in Run(w, ops).maps.busy
      {
        RunKeepsUnreachable(w, ops, c);
      }
    }
  }

  /** A move-assignment loses the connection it overwrites for ever exactly when no other live
      proxy points to it. */
  lemma {:induction false} OrphanedForeverExactly<P>(w: World<P>, p: P, src: P, c: Address)
    requires w.maps.idle.Keys !! w.maps.busy.Keys && c in w.maps.busy
    requires p in w.proxies && src in w.proxies && p != src && w.proxies[p].conn == Some(c)
    ensures var w' := Apply(w, MoveAssign(p, src));
            (forall ops :: Feasible(w', ops) ==> c in Run(w', ops).maps.busy) <==>
            forall q :: q in w.proxies && q != p ==> w.proxies[q].conn != Some(c)
  {
    var w' := Apply(w, MoveAssign(p, src));
    MovedView(w, p, src);
    BusyForeverExactly(w', c);
    hide Moved;
    if q :| q in w.proxies && q != p && w.proxies[q].conn == Some(c) {
      assert w'.proxies[if q == src then p else q].conn == Some(c);
    }
  }

  /** In a run that never hands out a connection a live proxy still points to, an orphaned
      connection stays busy. */
  lemma {:induction false} OrphansStayBusy<P>(connections: map<Address, Owned>, ops: seq<Op<P>>, k: nat)
    requires k <= |ops| && Feasible(Fresh(connections), ops) && Careful(Fresh(connections), ops)
    ensures Feasible(Fresh(connections), ops[..k])
    ensures var w, w' := Run(Fresh(connections), ops[..k]), Run(Fresh(connections), ops);
      w.orphaned <= w'.orphaned <= w'.maps.busy.Keys
    decreases |ops|
  {
    CarefulRun(connections, ops);
    if k == |ops| {
      assert ops[..k] == ops;
    } else {
      var n := |ops| - 1;
      OrphansStayBusy(connections, ops[..n], k);
      assert ops[..n][..k] == ops[..k];
      OrphansOnlyGrow(Run(Fresh(connections), ops[..n]), ops[n]);
    }
  }

  lemma OrphansOnlyGrow<P>(w: World<P>, op: Op<P>)
    requires Enabled(w, op)
    ensures w.orphaned <= Apply(w, op).orphaned
  {
  }

  /** Every size the pool reports in a run is the number of connections. */
  lemma SizeAnswersAreConstant<P>(connections: map<Address, Owned>, ops: seq<Op<P>>, i: nat)
    requires Feasible(Fresh(connections), ops) && i < |ops| && ops[i].AskSize?
    ensures ops[i].total == |connections|
  {
    hide Run, Feasible, Apply, Fresh, Conserved;
    FeasiblePrefix(Fresh(connections), ops, i);
    RunConserves(connections, ops[..i]);
  }

  // ----- releasing twice

  /** No get of the run hands out this connection. */
  ghost predicate NeverHandsOut<P>(w: World<P>, ops: seq<Op<P>>, c: Address)
    requires Feasible(w, ops)
    decreases |ops|
  {
    ops == [] ||
    (var n := |ops| - 1;
     NeverHandsOut(w, ops[..n], c) && (ops[n].Get? ==> Taken(Run(w, ops[..n]).maps, ops[n].visits) != Some(c)))
  }

  lemma StepKeepsIdle<P>(w: World<P>, op: Op<P>, c: Address)
    requires w.maps.idle.Keys !! w.maps.busy.Keys && c in w.maps.idle && Enabled(w, op)
    requires op.Get? ==> Taken(w.maps, op.visits) != Some(c)
    ensures var m := Apply(w, op).maps; m.idle.Keys !! m.busy.Keys && c in m.idle
  {
    hide Take, Taken, Release, Enumerates, InsertNode;
    match op
    case Get(_, visits) => TakeView(w.maps, visits);
    case Destroy(p) => ReleaseView(w.maps, w.proxies[p].conn);
    case ReleaseProxy(p) => ReleaseView(w.maps, w.proxies[p].conn);
    case _ =>
  }

  lemma {:induction false} RunKeepsIdle<P>(w: World<P>, ops: seq<Op<P>>, c: Address)
    requires w.maps.idle.Keys !! w.maps.busy.Keys && c in w.maps.idle
    requires Feasible(w, ops) && NeverHandsOut(w, ops, c)
    ensures var m := Run(w, ops).maps; m.idle.Keys !! m.busy.Keys && c in m.idle
    decreases |ops|
  {
    if ops != [] {
      var n := |ops| - 1;
      RunKeepsIdle(w, ops[..n], c);
      StepKeepsIdle(Run(w, ops[..n]), ops[n], c);
    }
  }

  /** Taking a connection back moves it, if it is busy, with what it owns, and nothing else. */
  lemma ReleaseExactly(m: Maps, conn: Option<Address>)
    requires m.idle.Keys !! m.busy.Keys
    ensures var m' := Release(m, conn);
      && (conn.Some? && conn.value in m.busy ==>
            && m'.busy == m.busy - {conn.value}
            && m'.idle == m.idle[conn.value := m.busy[conn.value]])
      && (m' == m <==> conn == None || conn.value !in m.busy)
  {
    if conn.Some? && conn.value in m.busy {
      assert conn.value !in Release(m, conn).busy;
    }
  }

  /** Moving a proxy into itself changes nothing; otherwise the source becomes empty and the
      target points where the source did. */
  lemma MoveAssignExactly<P>(w: World<P>, p: P, src: P)
    requires p in w.proxies && src in w.proxies
    ensures var w' := Apply(w, MoveAssign(p, src));
      && w'.maps == w.maps
      && (p == src ==> w' == w)
      && (p != src ==> w'.proxies == w.proxies[p := w.proxies[src]][src := Proxy(false, None)])
  {
    assert p != src ==> w.proxies[src := EMPTY] == w.proxies[src := Proxy(false, None)];
  }

  /** Destroying or releasing a proxy touches the maps exactly when its connection is busy. */
  lemma ReleaseActsExactly<P>(w: World<P>, p: P)
    requires w.maps.idle.Keys !! w.maps.busy.Keys && p in w.proxies
    ensures Apply(w, ReleaseProxy(p)).maps != w.maps <==>
            w.proxies[p].conn.Some? && w.proxies[p].conn.value in w.maps.busy
    ensures Apply(w, Destroy(p)).maps != w.maps <==> IsValid(w.maps, w.proxies[p])
  {
    var conn := w.proxies[p].conn;
    if conn.Some? && conn.value in w.maps.busy {
      assert conn.value !in Release(w.maps, conn).busy;
    }
  }

  /** After an explicit release, and any run that does not hand the connection out again,
      destroying or releasing any proxy that still points to it changes nothing. */
  lemma {:induction false} SecondReleaseIsNoOp<P>(w: World<P>, p: P, ops: seq<Op<P>>, q: P)
    requires w.maps.idle.Keys !! w.maps.busy.Keys
    requires p in w.proxies && w.proxies[p].conn.Some?
    requires w.proxies[p].conn.value in w.maps.idle.Keys + w.maps.busy.Keys
    requires Feasible(Apply(w, ReleaseProxy(p)), ops)
    requires NeverHandsOut(Apply(w, ReleaseProxy(p)), ops, w.proxies[p].conn.value)
    requires Holds(Run(Apply(w, ReleaseProxy(p)), ops), q, w.proxies[p].conn.value)
    ensures var w' := Run(Apply(w, ReleaseProxy(p)), ops);
      Apply(w', Destroy(q)).maps == w'.maps && Apply(w', ReleaseProxy(q)).maps == w'.maps
  {
    var c := w.proxies[p].conn.value;
    ReleaseConserves(w.maps, Some(c));
    RunKeepsIdle(Apply(w, ReleaseProxy(p)), ops, c);
    ReleaseActsExactly(Run(Apply(w, ReleaseProxy(p)), ops), q);
  }

  // ----- the run that breaks the promise

  /** Get, release, get again, destroy the first proxy: the second proxy still points to the
      connection, but the pool has taken it back. */
  function DoubleHandOut(c: Address): seq<Op<nat>>
  {
    [Get(0, [Works(c)]), ReleaseProxy(0), Get(1, [Works(c)]), Destroy(0)]
  }

  /** The world of such a run while the connection is busy or idle and the given proxies are live. */
  function OneConnection(
      c: Address, busy: bool, proxies: map<nat, Proxy>, stale: set<nat>, orphaned: set<Address>): World<nat>
  {
    var all := map[c := Owned(c)];
    World(if busy then Maps(map[], all) else Maps(all, map[]), proxies, orphaned, stale)
  }

  lemma OneGet(c: Address, proxies: map<nat, Proxy>, stale: set<nat>, p: nat)
    requires p !in proxies
    ensures var w, op := OneConnection(c, false, proxies, stale, {}), Get(p, [Works(c)]);
      Step(w, op, OneConnection(c, true, proxies[p := Proxy(true, Some(c))], stale, {}))
  {
    assert [Works(c)][0].conn == c;
  }

  lemma OneRelease(c: Address, proxies: map<nat, Proxy>, stale: set<nat>, orphaned: set<Address>, p: nat)
    requires p in proxies && proxies[p] == Proxy(true, Some(c))
    ensures var w := OneConnection(c, true, proxies, stale, orphaned);
      && Step(w, ReleaseProxy(p), OneConnection(c, false, proxies, stale + {p}, orphaned))
      && Step(w, Destroy(p), OneConnection(c, false, proxies - {p}, stale - {p}, orphaned))
  {
  }

  /** A chain of steps is a run. */
  lemma {:induction false} StepsRun(ws: seq<World<nat>>, ops: seq<Op<nat>>, n: nat)
    requires |ws| == |ops| + 1 && n <= |ops|
    requires forall i :: 0 <= i < |ops| ==> Step(ws[i], ops[i], ws[i + 1])
    ensures Feasible(ws[0], ops[..n]) && Run(ws[0], ops[..n]) == ws[n]
  {
    hide Apply, Enabled;
    if n > 0 {
      StepsRun(ws, ops, n - 1);
      assert Step(ws[n - 1], ops[n - 1], ws[n - 1 + 1]);
      assert ops[..n] == ops[..n - 1] + [ops[n - 1]];
      RunSnoc(ws[0], ops[..n - 1], ops[n - 1]);
    }
  }

  function DoubleHandOutWorlds(c: Address): seq<World<nat>>
  {
    var held := Proxy(true, Some(c));
    [OneConnection(c, false, map[], {}, {}),
     OneConnection(c, true, map[0 := held], {}, {}),
     OneConnection(c, false, map[0 := held], {0}, {}),
     OneConnection(c, true, map[0 := held, 1 := held], {0}, {}),
     OneConnection(c, false, map[1 := held], {}, {})]
  }

  lemma DoubleHandOutSteps(c: Address)
    ensures var ws, ops := DoubleHandOutWorlds(c), DoubleHandOut(c);
      forall i :: 0 <= i < 4 ==> Step(ws[i], ops[i], ws[i + 1])
  {
    hide Step, OneConnection;
    var held := Proxy(true, Some(c));
    OneGet(c, map[], {}, 0);
    OneRelease(c, map[0 := held], {}, {}, 0);
    assert {} + {0} == {0} && {0} - {0} == {};
    OneGet(c, map[0 := held], {0}, 1);
    OneRelease(c, map[0 := held, 1 := held], {0}, {}, 0);
    assert map[0 := held, 1 := held] - {0} == map[1 := held];
  }

  lemma ReleasedProxyDoublesConnection(c: Address)
    ensures var w0: World<nat> := Fresh(map[c := Owned(c)]);
      var ops := DoubleHandOut(c);
      && Feasible(w0, ops) && !AlwaysDistinct(w0, ops) && !Careful(w0, ops)
      && var w := Run(w0, ops);
         Holds(w, 1, c) && 1 !in w.stale && !IsValid(w.maps, w.proxies[1]) && c in w.maps.idle
  {
    var ws, ops := DoubleHandOutWorlds(c), DoubleHandOut(c);
    DoubleHandOutSteps(c);
    hide Step, Apply, Enabled;
    StepsRun(ws, ops, 3);
    StepsRun(ws, ops, 4);
    assert ops[..4] == ops;
    assert ws[3].proxies[0].conn == ws[3].proxies[1].conn;
    DistinctExactly(map[c := Owned(c)], ops);
  }

  /** Get, release, get again, overwrite the second proxy by an empty one, destroy the first: the
      connection is orphaned and yet comes back, because the first proxy still pointed to it. */
  function OrphanReturning(c: Address): seq<Op<nat>>
  {
    [Get(0, [Works(c)]), ReleaseProxy(0), Get(1, [Works(c)]), Get(2, []), MoveAssign(1, 2), Destroy(0)]
  }

  function OrphanReturningWorlds(c: Address): seq<World<nat>>
  {
    var held := Proxy(true, Some(c));
    DoubleHandOutWorlds(c)[..4]
    + [OneConnection(c, true, map[0 := held, 1 := held, 2 := EMPTY], {0}, {}),
       OneConnection(c, true, map[0 := held, 1 := EMPTY, 2 := EMPTY], {0}, {c}),
       OneConnection(c, false, map[1 := EMPTY, 2 := EMPTY], {}, {c})]
  }

  lemma OrphanReturningSteps(c: Address)
    ensures var ws, ops := OrphanReturningWorlds(c), OrphanReturning(c);
      forall i :: 3 <= i < 6 ==> Step(ws[i], ops[i], ws[i + 1])
  {
    hide Step, OneConnection;
    var held := Proxy(true, Some(c));
    var both := map[0 := held, 1 := held];
    EmptyGet(c, both, {0}, 2);
    OneOverwrite(c, both, {0}, 1, 2);
    assert both[2 := EMPTY] == map[0 := held, 1 := held, 2 := EMPTY];
    assert both[2 := EMPTY][1 := EMPTY] == map[0 := held, 1 := EMPTY, 2 := EMPTY];
    OneRelease(c, map[0 := held, 1 := EMPTY, 2 := EMPTY], {0}, {c}, 0);
    assert map[0 := held, 1 := EMPTY, 2 := EMPTY] - {0} == map[1 := EMPTY, 2 := EMPTY];
    assert {0} - {0} == {};
  }

  lemma EmptyGet(c: Address, proxies: map<nat, Proxy>, stale: set<nat>, p: nat)
    requires p !in proxies
    ensures Step(OneConnection(c, true, proxies, stale, {}), Get(p, []),
                 OneConnection(c, true, proxies[p := EMPTY], stale, {}))
  {
  }

  lemma OneOverwrite(c: Address, proxies: map<nat, Proxy>, stale: set<nat>, p: nat, src: nat)
    requires p in proxies && proxies[p] == Proxy(true, Some(c)) && p !in stale
    requires src !in proxies && src !in stale
    ensures Step(OneConnection(c, true, proxies[src := EMPTY], stale, {}), MoveAssign(p, src),
                 OneConnection(c, true, proxies[src := EMPTY][p := EMPTY], stale, {c}))
  {
    assert proxies[src := EMPTY][p := EMPTY][src := EMPTY] == proxies[src := EMPTY][p := EMPTY];
    assert stale - {p, src} + {} == stale;
  }

  lemma OrphanReturns(c: Address)
    ensures var w0: World<nat> := Fresh(map[c := Owned(c)]);
      var ops := OrphanReturning(c);
      && Feasible(w0, ops[..5]) && Feasible(w0, ops)
      && var v, w := Run(w0, ops[..5]), Run(w0, ops);
      && c in v.orphaned && c in v.maps.busy
      && c in w.orphaned && c in w.maps.idle && c !in w.maps.busy
  {
    var ws, ops := OrphanReturningWorlds(c), OrphanReturning(c);
    DoubleHandOutSteps(c);
    OrphanReturningSteps(c);
    hide Step, Apply, Enabled;
    forall i | 0 <= i < 3
      ensures Step(ws[i], ops[i], ws[i + 1])
    {
      assert Step(DoubleHandOutWorlds(c)[i], DoubleHandOut(c)[i], DoubleHandOutWorlds(c)[i + 1]);
    }
    StepsRun(ws, ops, 5);
    StepsRun(ws, ops, 6);
    assert ops[..6] == ops;
  }

  // ----- which connection a get hands out

  lemma {:induction false} FirstPassingIs(visits: seq<Visit>, n: nat)
    requires n < |visits| && visits[n].probe.Passes()
    requires forall i :: 0 <= i < n ==> !visits[i].probe.Passes()
    ensures FirstPassing(visits) == n
  {
    if n > 0 {
      FirstPassingIs(visits[1..], n - 1);
    }
  }

  /** A get hands out nothing exactly when every idle connection fails its check; otherwise
      exactly the first that does not fail, and every other connection stays where it was. */
  lemma TakenExactly(m: Maps, visits: seq<Visit>)
    requires m.idle.Keys !! m.busy.Keys && Enumerates(visits, m.idle.Keys)
    ensures var c, m' := Taken(m, visits), Take(m, visits);
      && (c == None <==>
            forall i :: 0 <= i < |visits| ==> visits[i].probe == Probe(Returns(false), Returns(false)))
      && (c == None ==> m' == m)
      && (c.Some? ==>
            && (exists i :: 0 <= i < |visits| && visits[i].conn == c.value
                  && visits[i].probe != Probe(Returns(false), Returns(false))
                  && forall j :: 0 <= j < i ==> visits[j].probe == Probe(Returns(false), Returns(false)))
            && m'.idle == m.idle - {c.value} && m'.busy == m.busy[c.value := m.idle[c.value]])
  {
    var n := FirstPassing(visits);
    if n < |visits| {
      assert visits[n].conn in m.idle.Keys;
    }
  }

  ghost predicate PassingGetOp<P>(op: Op<P>)
  {
    op.Get? && forall j :: 0 <= j < |op.visits| ==> op.visits[j].probe.Passes()
  }

  ghost predicate AllPassingGets<P>(ops: seq<Op<P>>)
  {
    forall i :: 0 <= i < |ops| ==> PassingGetOp(ops[i])
  }

  function Left(n: nat, k: nat): nat
  {
    if k < n then n - k else 0
  }

  lemma PassingGet<P>(w: World<P>, op: Op<P>)
    requires Accounted(w) && Enabled(w, op) && PassingGetOp(op)
    ensures var w' := Apply(w, op);
      && |w'.maps.idle| == Left(|w.maps.idle|, 1)
      && w'.proxies == w.proxies[op.p := w'.proxies[op.p]]
      && (w'.proxies[op.p].conn.Some? <==> |w.maps.idle| > 0)
      && w'.stale == w.stale && op.p !in w.proxies
  {
    TakenExactly(w.maps, op.visits);
    var c := Taken(w.maps, op.visits);
    if c.Some? {
      var m := Apply(w, op).maps.idle;
      assert m.Keys == w.maps.idle.Keys - {c.value};
      assert |m.Keys| == |w.maps.idle.Keys| - 1;
    } else {
      assert |op.visits| == 0;
      assert w.maps.idle.Keys == {};
    }
  }

  /** The first n gets were served as long as there were idle connections. */
  ghost predicate ServedInOrder<P>(idle: nat, w: World<P>, ops: seq<Op<P>>, n: nat)
    requires n <= |ops|
  {
    forall i :: 0 <= i < n ==>
      ops[i].Get? && ops[i].p in w.proxies && (w.proxies[ops[i].p].conn.Some? <==> i < idle)
  }

  lemma {:induction false} FeasiblePrefix<P>(w: World<P>, ops: seq<Op<P>>, n: nat)
    requires n <= |ops| && Feasible(w, ops)
    ensures Feasible(w, ops[..n])
    ensures n < |ops| ==>
              Enabled(Run(w, ops[..n]), ops[n]) && Feasible(w, ops[..n + 1])
              && Run(w, ops[..n + 1]) == Apply(Run(w, ops[..n]), ops[n])
    decreases |ops|
  {
    hide Apply, Enabled;
    if n == |ops| {
      assert ops[..n] == ops;
    } else if n == |ops| - 1 {
      assert ops[..n + 1] == ops;
    } else {
      var init := ops[..|ops| - 1];
      FeasiblePrefix(w, init, n);
      assert init[..n] == ops[..n] && init[..n + 1] == ops[..n + 1];
    }
  }

  /** When no check fails, gets without releases hand out every idle connection once, each to
      its own proxy, and then nothing. */
  lemma {:induction false} GetsExhaustThePool<P>(w: World<P>, ops: seq<Op<P>>, n: nat)
    requires Accounted(w) && w.stale == {} && Feasible(w, ops) && AllPassingGets(ops) && n <= |ops|
    ensures Feasible(w, ops[..n])
    ensures var w' := Run(w, ops[..n]);
      && Accounted(w') && w'.stale == {}
      && |w'.maps.idle| == Left(|w.maps.idle|, n)
      && ServedInOrder(|w.maps.idle|, w', ops, n)
    decreases n
  {
    hide Accounted, Enabled, Apply, Feasible, Run;
    FeasiblePrefix(w, ops, n);
    if n == 0 {
      NoSteps(w, ops);
    } else {
      GetsExhaustThePool(w, ops, n - 1);
      FeasiblePrefix(w, ops, n - 1);
      var v, op := Run(w, ops[..n - 1]), ops[n - 1];
      assert PassingGetOp(op);
      PassingGet(v, op);
      GetIsUnheld(v, op);
      StepAccounted(v, op);
      ServeOne(|w.maps.idle|, v, Apply(v, op), ops, n);
    }
  }

  lemma NoSteps<P>(w: World<P>, ops: seq<Op<P>>)
    ensures Feasible(w, ops[..0]) && Run(w, ops[..0]) == w
  {
  }

  lemma ServeOne<P>(idle: nat, v: World<P>, w: World<P>, ops: seq<Op<P>>, n: nat)
    requires 0 < n <= |ops| && ServedInOrder(idle, v, ops, n - 1)
    requires ops[n - 1].Get? && ops[n - 1].p !in v.proxies && ops[n - 1].p in w.proxies
    requires w.proxies == v.proxies[ops[n - 1].p := w.proxies[ops[n - 1].p]]
    requires w.proxies[ops[n - 1].p].conn.Some? <==> n - 1 < idle
    ensures ServedInOrder(idle, w, ops, n)
  {
  }
}
