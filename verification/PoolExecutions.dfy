/** What interleavings there are: which steps a thread can take, and that every run of whole
    operations is the record of some execution. */
module PoolExecutions {
  import opened Options
  import opened PoolModel
  import PoolLaws
  import opened PoolInterleaving
  import opened PoolInterleavingLaws

  // ----- who can step

  /** The proxies a call names that must be live, and the one it makes. */
  function Needs(call: Act): set<Pid>
  {
    match call
    case BeginMoveConstruct(_, src) => {src}
    case BeginMoveAssign(p, src) => {p, src}
    case BeginDestroy(p) => {p}
    case BeginRelease(p) => {p}
    case BeginValid(p) => {p}
    case _ => {}
  }

  function Makes(call: Act): set<Pid>
  {
    match call
    case BeginGet(p) => {p}
    case BeginMoveConstruct(p, _) => {p}
    case _ => {}
  }

  /** A thread can make a call exactly when it is back from its last one, the proxies the call
      works on are live, the one it makes is not, and no other operation in flight uses them. */
  lemma ReadyCanCallExactly(s: Sys, t: Tid, call: Act)
    requires t in s.pcs && !call.Go?
    ensures Next(s, t, call).Some? <==>
            && s.pcs[t] == Ready
            && (forall p :: p in Needs(call) ==> p in s.proxies)
            && (forall p :: p in Makes(call) ==> p !in s.proxies)
            && (forall p, u :: p in Needs(call) + Makes(call) && u in s.pcs ==> p !in s.pcs[u].Uses())
  {
    NobodyUses(s, Needs(call) + Makes(call));
    CanBegin(s, t, call);
    hide Free, Begin, Needs, Makes;
  }

  lemma NobodyUses(s: Sys, proxies: set<Pid>)
    ensures (forall p :: p in proxies ==> Free(s, p)) <==>
            forall p, u :: p in proxies && u in s.pcs ==> p !in s.pcs[u].Uses()
  {
    if p, u :| p in proxies && u in s.pcs && p in s.pcs[u].Uses() {
      assert !Free(s, p);
    }
  }

  lemma CanBegin(s: Sys, t: Tid, call: Act)
    requires t in s.pcs && !call.Go?
    ensures Begin(s, t, call).Some? <==>
            && s.pcs[t] == Ready
            && (forall p :: p in Needs(call) ==> p in s.proxies)
            && (forall p :: p in Makes(call) ==> p !in s.proxies)
            && (forall p :: p in Needs(call) + Makes(call) ==> Free(s, p))
  {
    hide Free;
    if !call.BeginSize? {
      assert call.p in Needs(call) + Makes(call);
      assert call.BeginMoveConstruct? || call.BeginMoveAssign? ==> call.src in Needs(call);
    }
  }

  /** An operation in flight waits exactly when it requests the mutex while another thread has it. */
  lemma WaitsExactly(s: Sys, w: World<Pid>, t: Tid)
    requires Inv(s, w) && t in s.pcs && s.pcs[t] != Ready
    ensures (forall visits :: Next(s, t, Go(visits)) == None) <==>
            s.pcs[t].Requests() && exists u :: u in s.pcs && u != t && s.mutex == Some(u)
  {
    if s.pcs[t].Inside() {
      InsideCanStep(s, w, t);
      NobodyRelocks(s, w);
    } else if s.mutex == None {
      var visits := PoolLaws.EnumerationExists(s.maps.idle.Keys);
      assert Next(s, t, Go(visits)).Some?;
    }
  }

  // ----- carrying out one operation

  /** A thread that stands here is on its way to this operation. */
  predicate Toward(pc: Pc, op: Op<Pid>)
  {
    if pc.GetLock? then op.Get? && op.p == pc.p
    else if InGet(pc) then op == Get(pc.p, pc.visits)
    else if InRelease(pc) then op == if pc.drop then Destroy(pc.p) else ReleaseProxy(pc.p)
    else if pc.ValidLock? || pc.ValidCount? || pc.ValidUnlock? then op.AskValid? && op.p == pc.p
    else !pc.Ready? && op.AskSize?
  }

  /** How many steps are left inside, at most. */
  function StepsLeft(pc: Pc): nat
  {
    match pc
    case GetScan(_, visits, i) => 6 + if i < |visits| then |visits| - i else 0
    case GetExtract(_, _, _) => 5
    case GetInsert(_, _, _, _) => 4
    case GetMoveOut(_, _, _) => 3
    case GetDropLocal(_, _, _, _) => 2
    case ReleaseFind(_, _, _) => 3
    case ReleaseInsert(_, _, _, _) => 2
    case SizeCountBusy => 3
    case SizeCountIdle(_) => 2
    case ValidCount(_, _) => 2
    case _ => 1
  }

  /** What a step inside does: it returns, recording the operation the thread was on its way to,
      or comes one step closer to it. */
  ghost predicate Advances(s: Sys, t: Tid, op: Op<Pid>, s': Sys)
    requires t in s.pcs
  {
    && t in s'.pcs && s'.pcs == s.pcs[t := s'.pcs[t]]
    && if s'.pcs[t] == Ready
       then s'.mutex == None && |s'.hist| == |s.hist| + 1 && s'.hist[..|s.hist|] == s.hist
            && Toward(s.pcs[t], s'.hist[|s.hist|])
       else Toward(s'.pcs[t], op) && StepsLeft(s'.pcs[t]) < StepsLeft(s.pcs[t])
            && s'.hist == s.hist && s'.mutex == s.mutex
            && (s'.pcs[t].Inside() || s'.pcs[t].GetRelock?)
  }

  lemma GetAdvances(s: Sys, t: Tid, op: Op<Pid>)
    requires t in s.pcs && s.pcs[t].Inside() && !s.pcs[t].GetRelock? && InGet(s.pcs[t]) && Toward(s.pcs[t], op)
    requires s.pcs[t].GetDropLocal? ==> !s.pcs[t].local.pool
    ensures GoGet(s, t, []).Some? ==> Advances(s, t, op, GoGet(s, t, []).value)
  {
    hide Enumerates, InsertNode;
  }

  lemma ReleaseAdvances(s: Sys, t: Tid, op: Op<Pid>)
    requires t in s.pcs && s.pcs[t].Inside() && InRelease(s.pcs[t]) && Toward(s.pcs[t], op)
    ensures GoRelease(s, t).Some? ==> Advances(s, t, op, GoRelease(s, t).value)
  {
    hide InsertNode;
  }

  lemma QueryAdvances(s: Sys, t: Tid, op: Op<Pid>)
    requires t in s.pcs && s.pcs[t].Inside() && !InGet(s.pcs[t]) && !InRelease(s.pcs[t]) && Toward(s.pcs[t], op)
    ensures GoQuery(s, t).Some? ==> Advances(s, t, op, GoQuery(s, t).value)
  {
  }

  lemma InsideAdvances(s: Sys, w: World<Pid>, t: Tid, op: Op<Pid>)
    requires Inv(s, w) && t in s.pcs && s.pcs[t].Inside() && Toward(s.pcs[t], op)
    ensures Next(s, t, Go([])).Some? && Advances(s, t, op, Next(s, t, Go([])).value)
  {
    InsideIsHolder(s, w, t);
    LocalIsEmpty(s.pcs[t], s.maps, s.base);
    NobodyRelocks(s, w);
    InsideCanStep(s, w, t);
    hide Inv, MapsOk, Toward, GoGet, GoRelease, GoQuery, Advances;
    if InGet(s.pcs[t]) {
      GetAdvances(s, t, op);
    } else if InRelease(s.pcs[t]) {
      ReleaseAdvances(s, t, op);
    } else {
      QueryAdvances(s, t, op);
    }
  }

  /** Inside, the answer of the operation is settled. */
  lemma OnlyOneAnswer(pc: Pc, w: World<Pid>, op: Op<Pid>, op': Op<Pid>)
    requires pc.Inside() && Toward(pc, op) && Toward(pc, op') && Enabled(w, op) && Enabled(w, op')
    ensures op == op'
  {
  }

  lemma {:induction false} ExecuteConcat(s: Sys, a: seq<Label>, b: seq<Label>)
    requires Execute(s, a).Some?
    ensures Execute(s, a + b) == Execute(Execute(s, a).value, b)
    decreases |b|
  {
    if b == [] {
      assert a + b == a;
    } else {
      var n := |b| - 1;
      ExecuteConcat(s, a, b[..n]);
      assert (a + b)[..|a + b| - 1] == a + b[..n];
    }
  }

  lemma ExecuteFirst(s: Sys, l: Label, labels: seq<Label>)
    requires Next(s, l.t, l.act).Some?
    ensures Execute(s, [l] + labels) == Execute(Next(s, l.t, l.act).value, labels)
  {
    hide Next;
    assert [l][..0] == [];
    ExecuteConcat(s, [l], labels);
  }

  ghost predicate OnlyBy(labels: seq<Label>, t: Tid)
  {
    forall i :: 0 <= i < |labels| ==> labels[i].t == t
  }

  /** The labels carry out one operation of this thread and leave every other where it was. */
  ghost predicate CarriesOut(s: Sys, w: World<Pid>, t: Tid, op: Op<Pid>, labels: seq<Label>)
    requires Enabled(w, op)
  {
    && Execute(s, labels).Some? && OnlyBy(labels, t)
    && var s' := Execute(s, labels).value;
    && s'.hist == s.hist + [op] && s'.mutex == None && s'.pcs == s.pcs[t := Ready]
    && Inv(s', Apply(w, op))
  }

  lemma OneStepCarriesOut(s: Sys, w: World<Pid>, t: Tid, op: Op<Pid>, act: Act)
    requires Enabled(w, op) && Next(s, t, act).Some?
    requires var s' := Next(s, t, act).value;
      s'.hist == s.hist + [op] && s'.mutex == None && s'.pcs == s.pcs[t := Ready] && Inv(s', Apply(w, op))
    ensures CarriesOut(s, w, t, op, [Label(t, act)])
  {
    hide Inv, Next, Apply, Enabled;
    ExecuteFirst(s, Label(t, act), []);
    assert [Label(t, act)] + [] == [Label(t, act)];
  }

  lemma StepThenCarriesOut(s: Sys, w: World<Pid>, t: Tid, op: Op<Pid>, act: Act, labels: seq<Label>)
    requires Enabled(w, op) && t in s.pcs && Next(s, t, act).Some?
    requires var s' := Next(s, t, act).value;
      s'.hist == s.hist && t in s'.pcs && s'.pcs == s.pcs[t := s'.pcs[t]] && CarriesOut(s', w, t, op, labels)
    ensures CarriesOut(s, w, t, op, [Label(t, act)] + labels)
  {
    hide Inv, Next, Apply, Enabled;
    ExecuteFirst(s, Label(t, act), labels);
  }

  /** A thread inside can go through to its operation, alone. */
  lemma {:induction false} InsideCarriesOut(s: Sys, w: World<Pid>, t: Tid, op: Op<Pid>) returns (labels: seq<Label>)
    requires Inv(s, w) && t in s.pcs && s.pcs[t].Inside() && Toward(s.pcs[t], op) && Enabled(w, op)
    ensures CarriesOut(s, w, t, op, labels)
    decreases StepsLeft(s.pcs[t])
  {
    InsideAdvances(s, w, t, op);
    NextRefines(s, w, t, Go([]));
    var s' := Next(s, t, Go([])).value;
    hide Inv, Next, Apply, Enabled, Toward, StepsLeft, Execute;
    if s'.pcs[t] == Ready {
      OnlyOneAnswer(s.pcs[t], w, op, s'.hist[|s.hist|]);
      assert s'.hist == s'.hist[..|s.hist|] + [op];
      OneStepCarriesOut(s, w, t, op, Go([]));
      labels := [Label(t, Go([]))];
    } else {
      var rest := InsideCarriesOut(s', w, t, op);
      StepThenCarriesOut(s, w, t, op, Go([]), rest);
      labels := [Label(t, Go([]))] + rest;
    }
  }

  // ----- from the call to the mutex

  /** The proxies an operation works on. */
  function UsedBy(op: Op<Pid>): set<Pid>
  {
    match op
    case MoveConstruct(p, src) => {p, src}
    case MoveAssign(p, src) => {p, src}
    case AskSize(_) => {}
    case _ => {op.p}
  }

  function CallFor(op: Op<Pid>): Act
  {
    match op
    case Get(p, _) => BeginGet(p)
    case MoveConstruct(p, src) => BeginMoveConstruct(p, src)
    case MoveAssign(p, src) => BeginMoveAssign(p, src)
    case Destroy(p) => BeginDestroy(p)
    case ReleaseProxy(p) => BeginRelease(p)
    case AskSize(_) => BeginSize
    case AskValid(p, _) => BeginValid(p)
  }

  /** The call either is the whole operation, or brings the thread before the mutex. */
  ghost predicate Called(s: Sys, t: Tid, op: Op<Pid>, s': Sys)
    requires t in s.pcs
  {
    && t in s'.pcs && s'.pcs == s.pcs[t := s'.pcs[t]] && s'.mutex == s.mutex
    && if s'.pcs[t] == Ready then s'.hist == s.hist + [op]
       else Toward(s'.pcs[t], op) && s'.pcs[t].Requests() && !s'.pcs[t].Inside()
            && s'.hist == s.hist && s'.maps == s.maps
  }

  lemma CallMove(s: Sys, w: World<Pid>, t: Tid, op: Op<Pid>)
    requires w.proxies == s.proxies && t in s.pcs && s.pcs[t] == Ready && Enabled(w, op)
    requires (op.MoveConstruct? || op.MoveAssign?) && forall p :: p in UsedBy(op) ==> Free(s, p)
    ensures Begin(s, t, CallFor(op)).Some? && Called(s, t, op, Begin(s, t, CallFor(op)).value)
  {
    hide Free;
    assert op.p in UsedBy(op) && op.src in UsedBy(op);
  }

  lemma CallEnding(s: Sys, w: World<Pid>, t: Tid, op: Op<Pid>)
    requires w.proxies == s.proxies && t in s.pcs && s.pcs[t] == Ready && Enabled(w, op)
    requires (op.Destroy? || op.ReleaseProxy?) && forall p :: p in UsedBy(op) ==> Free(s, p)
    ensures Begin(s, t, CallFor(op)).Some? && Called(s, t, op, Begin(s, t, CallFor(op)).value)
  {
    hide Free;
    assert op.p in UsedBy(op);
  }

  lemma CallOther(s: Sys, w: World<Pid>, t: Tid, op: Op<Pid>)
    requires w.proxies == s.proxies && t in s.pcs && s.pcs[t] == Ready && Enabled(w, op)
    requires (op.Get? || op.AskSize? || op.AskValid?) && forall p :: p in UsedBy(op) ==> Free(s, p)
    ensures Begin(s, t, CallFor(op)).Some? && Called(s, t, op, Begin(s, t, CallFor(op)).value)
  {
    hide Free, Enumerates;
    assert !op.AskSize? ==> op.p in UsedBy(op);
  }

  /** With the mutex free, a thread that requests it gets in, and a get sees what it is to see. */
  lemma LockStepsIn(s: Sys, t: Tid, op: Op<Pid>)
    requires t in s.pcs && s.pcs[t].Requests() && !s.pcs[t].Inside() && s.mutex == None && Toward(s.pcs[t], op)
    requires op.Get? ==> Enumerates(op.visits, s.maps.idle.Keys)
    ensures var act := Go(if op.Get? then op.visits else []);
      && Next(s, t, act).Some?
      && var s' := Next(s, t, act).value;
      && t in s'.pcs && s'.pcs == s.pcs[t := s'.pcs[t]] && s'.hist == s.hist
      && s'.pcs[t].Inside() && Toward(s'.pcs[t], op)
  {
    hide Enumerates;
  }

  /** Whenever the mutex is free, a thread back from its last call can carry out any operation
      the pool allows, alone, as long as no other operation in flight uses the same proxies. */
  lemma OperationCarriesOut(s: Sys, w: World<Pid>, t: Tid, op: Op<Pid>) returns (labels: seq<Label>)
    requires Inv(s, w) && s.mutex == None && t in s.pcs && s.pcs[t] == Ready
    requires Enabled(w, op) && forall p :: p in UsedBy(op) ==> Free(s, p)
    ensures CarriesOut(s, w, t, op, labels)
  {
    hide Free, MapsOk, ProxyOk, Enumerates, Begin, Toward, Apply;
    var call := CallFor(op);
    if op.MoveConstruct? || op.MoveAssign? {
      CallMove(s, w, t, op);
    } else if op.Destroy? || op.ReleaseProxy? {
      CallEnding(s, w, t, op);
    } else {
      CallOther(s, w, t, op);
    }
    NextRefines(s, w, t, call);
    var s1 := Next(s, t, call).value;
    if s1.pcs[t] == Ready {
      OneStepCarriesOut(s, w, t, op, call);
      labels := [Label(t, call)];
    } else {
      var rest := LockCarriesOut(s1, w, t, op);
      StepThenCarriesOut(s, w, t, op, call, rest);
      labels := [Label(t, call)] + rest;
    }
  }

  lemma LockCarriesOut(s: Sys, w: World<Pid>, t: Tid, op: Op<Pid>) returns (labels: seq<Label>)
    requires Inv(s, w) && s.mutex == None && t in s.pcs && Enabled(w, op)
    requires s.pcs[t].Requests() && !s.pcs[t].Inside() && Toward(s.pcs[t], op)
    ensures CarriesOut(s, w, t, op, labels)
  {
    hide MapsOk, ProxyOk, Enumerates, Toward, Apply, Execute, GoGet, GoRelease, GoQuery;
    var act := Go(if op.Get? then op.visits else []);
    LockStepsIn(s, t, op);
    NextRefines(s, w, t, act);
    var rest := InsideCarriesOut(Next(s, t, act).value, w, t, op);
    StepThenCarriesOut(s, w, t, op, act, rest);
    labels := [Label(t, act)] + rest;
  }

  // ----- whole runs

  lemma NothingInFlight(s: Sys, threads: set<Tid>, p: Pid)
    requires s.pcs == map u | u in threads :: Ready
    ensures Free(s, p)
  {
  }

  /** The system rests in the world `w`: every thread is back from its last call. */
  ghost predicate Rests(s: Sys, threads: set<Tid>, w: World<Pid>)
  {
    Inv(s, w) && s.mutex == None && s.pcs == map u | u in threads :: Ready
  }

  lemma OneMore(s: Sys, threads: set<Tid>, t: Tid, w: World<Pid>, op: Op<Pid>) returns (labels: seq<Label>)
    requires Rests(s, threads, w) && t in threads && Enabled(w, op)
    ensures Execute(s, labels).Some? && OnlyBy(labels, t)
    ensures Execute(s, labels).value.hist == s.hist + [op]
    ensures Rests(Execute(s, labels).value, threads, Apply(w, op))
  {
    hide Inv, Apply, Enabled, Execute, Free, UsedBy;
    forall p | p in UsedBy(op)
      ensures Free(s, p)
    {
      NothingInFlight(s, threads, p);
    }
    labels := OperationCarriesOut(s, w, t, op);
  }

  /** Every run of whole operations is the record of an execution, by any one of the threads: the
      executions lead to exactly the runs. */
  lemma {:induction false} EveryRunIsExecuted(
      connections: map<Address, Owned>, threads: set<Tid>, t: Tid, ops: seq<Op<Pid>>) returns (labels: seq<Label>)
    requires t in threads && Feasible(Fresh(connections), ops)
    ensures OnlyBy(labels, t) && Execute(Start(connections, threads), labels).Some?
    ensures var s, w := Execute(Start(connections, threads), labels).value, Run(Fresh(connections), ops);
      && s.hist == ops && s.maps == w.maps && s.proxies == w.proxies
      && Rests(s, threads, w)
    decreases |ops|
  {
    hide Start, Inv, Apply, Enabled, Execute;
    if ops == [] {
      labels := [];
      StartRests(connections, threads);
    } else {
      var n := |ops| - 1;
      var before := EveryRunIsExecuted(connections, threads, t, ops[..n]);
      var s, w := Execute(Start(connections, threads), before).value, Run(Fresh(connections), ops[..n]);
      var last := OneMore(s, threads, t, w, ops[n]);
      ExecuteConcat(Start(connections, threads), before, last);
      labels := before + last;
      assert ops == ops[..n] + [ops[n]];
      QuietIsLinked(Execute(s, last).value, Run(Fresh(connections), ops));
    }
  }

  lemma StartRests(connections: map<Address, Owned>, threads: set<Tid>)
    ensures var s0, w0: World<Pid> := Start(connections, threads), Fresh(connections);
      && Execute(s0, []) == Some(s0) && s0.hist == [] && Rests(s0, threads, w0)
      && s0.maps == w0.maps && s0.proxies == w0.proxies
  {
    hide Inv;
    StartIsLinked(connections, threads);
  }

  lemma QuietIsLinked(s: Sys, w: World<Pid>)
    requires Inv(s, w) && s.mutex == None
    ensures s.maps == w.maps && s.proxies == w.proxies
  {
    hide MapsOk, ProxyOk;
  }
}
