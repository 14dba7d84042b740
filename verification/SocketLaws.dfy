/** The reference law of socket handles, over every run. */
module SocketLaws {
  import opened SocketModel

  ghost function Live<H, C>(handles: map<H, Handle<C>>, c: C): set<H>
  {
    set h | h in handles && handles[h].counter == c
  }

  /** The counters and descriptors of live handles are sound. */
  ghost predicate Sound<H, C>(s: Sockets<H, C>)
  {
    && s.counters.Keys !! s.freed && s.fds.Keys == s.counters.Keys + s.freed
    && (forall h :: h in s.handles ==>
          s.handles[h].counter in s.counters && s.handles[h].fd == s.fds[s.handles[h].counter])
    && (forall c :: c in s.overwritten ==> c in s.counters)
  }

  /** Each counter is the number of its live handles plus the number of times one of its
      handles was overwritten. */
  ghost predicate Counted<H, C>(s: Sockets<H, C>)
  {
    forall c :: c in s.counters ==> s.counters[c] == |Live(s.handles, c)| + s.overwritten[c] >= 1
  }

  /** The global count is the number of live handles plus all assignments, plus the constructors
      that threw after counting themselves; every assignment overwrote one handle. */
  ghost predicate Tallied<H, C>(s: Sockets<H, C>)
  {
    s.nof == |s.handles| + s.assignments + s.failures && |s.overwritten| == s.assignments
  }

  /** Every freed counter was closed exactly once. */
  ghost predicate ClosedOnce<H, C>(s: Sockets<H, C>)
  {
    && (forall i, j :: 0 <= i < j < |s.closed| ==> s.closed[i] != s.closed[j])
    && (forall i :: 0 <= i < |s.closed| ==> s.closed[i] in s.freed)
    && (forall c :: c in s.freed ==> c in s.closed)
  }

  ghost predicate Law<H, C>(s: Sockets<H, C>)
  {
    Sound(s) && Counted(s) && Tallied(s) && ClosedOnce(s)
  }

  // ----- live handles under the operations

  lemma LiveSet<H, C>(handles: map<H, Handle<C>>, h: H, x: Handle<C>, c: C)
    ensures Live(handles[h := x], c) == if x.counter == c then Live(handles, c) + {h} else Live(handles, c) - {h}
  {
  }

  lemma LiveRemoved<H, C>(handles: map<H, Handle<C>>, h: H, c: C)
    ensures Live(handles - {h}, c) == Live(handles, c) - {h}
  {
  }

  lemma LiveCount<H, C>(handles: map<H, Handle<C>>, h: H, x: Handle<C>, c: C)
    ensures var before := h in handles && handles[h].counter == c;
      |Live(handles[h := x], c)| ==
      |Live(handles, c)| + (if x.counter == c then 1 else 0) - (if before then 1 else 0)
  {
    LiveSet(handles, h, x, c);
  }

  lemma LiveCountRemoved<H, C>(handles: map<H, Handle<C>>, h: H, c: C)
    requires h in handles
    ensures |Live(handles - {h}, c)| == |Live(handles, c)| - if handles[h].counter == c then 1 else 0
  {
    LiveRemoved(handles, h, c);
  }

  lemma NobodyLives<H, C>(handles: map<H, Handle<C>>, c: C)
    requires |Live(handles, c)| == 0
    ensures forall h :: h in handles ==> handles[h].counter != c
  {
    forall h | h in handles
      ensures handles[h].counter != c
    {
      assert handles[h].counter == c ==> h in Live(handles, c);
    }
  }

  lemma MapSizes<H, V>(m: map<H, V>, h: H, v: V)
    ensures |m[h := v]| == |m| + if h in m then 0 else 1
    ensures h in m ==> |m - {h}| == |m| - 1
  {
    if h in m {
      assert m[h := v].Keys == m.Keys;
    } else {
      assert m[h := v].Keys == m.Keys + {h};
    }
    assert (m - {h}).Keys == m.Keys - {h};
  }

  // ----- one step

  lemma NewCounter<H, C>(s: Sockets<H, C>, c: C)
    requires Sound(s) && c !in s.fds
    ensures |Live(s.handles, c)| == 0 && s.overwritten[c] == 0
  {
    assert Live(s.handles, c) == {};
  }

  lemma CountedStep<H, C>(s: Sockets<H, C>, op: Op<H, C>)
    requires Law(s) && Enabled(s, op)
    ensures Counted(Apply(s, op))
  {
    hide Live, Tallied, ClosedOnce;
    var s' := Apply(s, op);
    forall c | c in s'.counters
      ensures s'.counters[c] == |Live(s'.handles, c)| + s'.overwritten[c] >= 1
    {
      match op
      case Construct(h, k, fd) =>
        LiveCount(s.handles, h, Handle(k, fd), c);
        NewCounter(s, k);
      case Refused =>
      case Copy(h, o) => LiveCount(s.handles, h, s.handles[o], c);
      case Assign(h, o) => LiveCount(s.handles, h, s.handles[o], c);
      case Destroy(h) => LiveCountRemoved(s.handles, h, c);
    }
  }

  lemma SoundConstruct<H, C>(s: Sockets<H, C>, op: Op<H, C>)
    requires Sound(s) && Enabled(s, op) && (op.Construct? || op.Refused?)
    ensures Sound(Apply(s, op))
  {
  }

  lemma SoundShare<H, C>(s: Sockets<H, C>, op: Op<H, C>)
    requires Sound(s) && Enabled(s, op) && (op.Copy? || op.Assign?)
    ensures Sound(Apply(s, op))
  {
    var s', c := Apply(s, op), s.handles[op.o].counter;
    assert s'.counters.Keys == s.counters.Keys;
    assert op.Assign? ==> s.handles[op.h].counter in s.counters;
  }

  lemma SoundStep<H, C>(s: Sockets<H, C>, op: Op<H, C>)
    requires Law(s) && Enabled(s, op)
    ensures Sound(Apply(s, op))
  {
    hide Apply, Live, Sound, Counted, Tallied, ClosedOnce;
    match op
    case Destroy(h) => SoundDestroy(s, h);
    case Copy(_, _) => SoundShare(s, op);
    case Assign(_, _) => SoundShare(s, op);
    case _ => SoundConstruct(s, op);
  }

  /** When a counter reaches zero, nothing refers to it any more. */
  lemma LastHandle<H, C>(s: Sockets<H, C>, h: H)
    requires Counted(s) && h in s.handles && s.handles[h].counter in s.counters
    requires s.counters[s.handles[h].counter] == 1
    ensures forall g :: g in s.handles && g != h ==> s.handles[g].counter != s.handles[h].counter
    ensures s.overwritten[s.handles[h].counter] == 0
  {
    var c := s.handles[h].counter;
    LiveCountRemoved(s.handles, h, c);
    assert h in Live(s.handles, c);
    assert |Live(s.handles, c)| >= 1;
    NobodyLives(s.handles - {h}, c);
    assert forall g :: g in s.handles && g != h ==> (s.handles - {h})[g] == s.handles[g];
  }

  lemma SoundDestroy<H, C>(s: Sockets<H, C>, h: H)
    requires Law(s) && Enabled(s, Destroy(h))
    ensures Sound(Apply(s, Destroy(h)))
  {
    hide Live, Counted, Tallied, ClosedOnce;
    if s.counters[s.handles[h].counter] == 1 {
      LastHandle(s, h);
    }
  }

  lemma TalliedMore<H, C>(s: Sockets<H, C>, op: Op<H, C>)
    requires Tallied(s) && Enabled(s, op) && !op.Destroy?
    ensures Tallied(Apply(s, op))
  {
    var s' := Apply(s, op);
    if !op.Refused? {
      MapSizes(s.handles, op.h, s'.handles[op.h]);
    }
  }

  lemma TalliedDestroy<H, C>(s: Sockets<H, C>, h: H)
    requires Tallied(s) && Enabled(s, Destroy(h))
    ensures Tallied(Apply(s, Destroy(h)))
  {
    MapSizes(s.handles, h, s.handles[h]);
  }

  lemma TalliedStep<H, C>(s: Sockets<H, C>, op: Op<H, C>)
    requires Law(s) && Enabled(s, op)
    ensures Tallied(Apply(s, op))
  {
    hide Apply, Tallied;
    if op.Destroy? {
      TalliedDestroy(s, op.h);
    } else {
      TalliedMore(s, op);
    }
  }

  lemma ClosedOnceStep<H, C>(s: Sockets<H, C>, op: Op<H, C>)
    requires Law(s) && Enabled(s, op)
    ensures ClosedOnce(Apply(s, op))
  {
    hide Live, Counted, Tallied;
    if op.Destroy? && s.counters[s.handles[op.h].counter] == 1 {
      ClosedSnoc(s.closed, s.freed, s.handles[op.h].counter);
    }
  }

  lemma ClosedSnoc<C>(closed: seq<C>, freed: set<C>, c: C)
    requires forall i, j :: 0 <= i < j < |closed| ==> closed[i] != closed[j]
    requires forall i :: 0 <= i < |closed| ==> closed[i] in freed
    requires forall k :: k in freed ==> k in closed
    requires c !in freed
    ensures var closed', freed' := closed + [c], freed + {c};
      && (forall i, j :: 0 <= i < j < |closed'| ==> closed'[i] != closed'[j])
      && (forall i :: 0 <= i < |closed'| ==> closed'[i] in freed')
      && (forall k :: k in freed' ==> k in closed')
  {
  }

  lemma StepKeepsLaw<H, C>(s: Sockets<H, C>, op: Op<H, C>)
    requires Law(s) && Enabled(s, op)
    ensures Law(Apply(s, op))
  {
    CountedStep(s, op);
    SoundStep(s, op);
    TalliedStep(s, op);
    ClosedOnceStep(s, op);
    hide Sound, Counted, Tallied, ClosedOnce, Apply, Enabled;
  }

  // ----- what an operation does to handles, counters and the global count

  lemma Usable<H, C>(s: Sockets<H, C>, h: H)
    requires Law(s) && h in s.handles
    ensures s.handles[h].counter in s.counters && s.counters[s.handles[h].counter] >= 1
  {
    hide Live, Tallied, ClosedOnce;
  }

  lemma AfterRefused<H, C>(s: Sockets<H, C>)
    requires Law(s)
    ensures Enabled(s, Refused) && Law(Apply(s, Refused))
    ensures var s' := Apply(s, Refused);
      s'.nof == s.nof + 1 && s'.handles == s.handles && s'.counters == s.counters
  {
    hide Law;
    StepKeepsLaw(s, Refused);
  }

  lemma AfterConstruct<H, C>(s: Sockets<H, C>, h: H, c: C, fd: int)
    requires Law(s) && h !in s.handles && c !in s.fds
    ensures Enabled(s, Construct(h, c, fd)) && c !in s.counters
    ensures var s' := Apply(s, Construct(h, c, fd));
      && Law(s') && s'.nof == s.nof + 1
      && s'.handles == s.handles[h := Handle(c, fd)] && s'.counters == s.counters[c := 1]
  {
    StepKeepsLaw(s, Construct(h, c, fd));
    hide Live, Counted, Tallied, ClosedOnce;
  }

  lemma ShareEnabled<H, C>(s: Sockets<H, C>, op: Op<H, C>)
    requires Law(s) && (op.Copy? || op.Assign?) && op.o in s.handles && (op.Assign? <==> op.h in s.handles)
    ensures Enabled(s, op)
  {
    hide Law, Apply;
    Usable(s, op.o);
  }

  lemma ShareView<H, C>(s: Sockets<H, C>, op: Op<H, C>)
    requires (op.Copy? || op.Assign?) && Enabled(s, op)
    ensures var s', c := Apply(s, op), s.handles[op.o].counter;
      && s'.nof == s.nof + 1 && c in s.counters
      && s'.handles == s.handles[op.h := s.handles[op.o]]
      && s'.counters == s.counters[c := s.counters[c] + 1]
  {
  }

  lemma AfterShare<H, C>(s: Sockets<H, C>, op: Op<H, C>)
    requires Law(s) && (op.Copy? || op.Assign?) && op.o in s.handles && (op.Assign? <==> op.h in s.handles)
    ensures Enabled(s, op)
    ensures var s', c := Apply(s, op), s.handles[op.o].counter;
      && Law(s') && s'.nof == s.nof + 1 && c in s.counters
      && s'.handles == s.handles[op.h := s.handles[op.o]]
      && s'.counters == s.counters[c := s.counters[c] + 1]
  {
    hide Law, Apply, Enabled;
    ShareEnabled(s, op);
    ShareView(s, op);
    StepKeepsLaw(s, op);
  }

  lemma DestroyView<H, C>(s: Sockets<H, C>, h: H)
    requires Enabled(s, Destroy(h))
    ensures var s', c := Apply(s, Destroy(h)), s.handles[h].counter;
      && s'.nof == s.nof - 1 && c in s.counters
      && s'.handles == s.handles - {h}
      && s'.counters == (if s.counters[c] == 1 then s.counters - {c} else s.counters[c := s.counters[c] - 1])
      && (s'.closed != s.closed <==> s.counters[c] == 1)
      && (s'.ends != s.ends <==> s'.nof == 0)
  {
  }

  lemma AfterDestroy<H, C>(s: Sockets<H, C>, h: H)
    requires Law(s) && h in s.handles
    ensures Enabled(s, Destroy(h))
    ensures var s', c := Apply(s, Destroy(h)), s.handles[h].counter;
      && Law(s') && s'.nof == s.nof - 1 && c in s.counters
      && s'.handles == s.handles - {h}
      && s'.counters == (if s.counters[c] == 1 then s.counters - {c} else s.counters[c := s.counters[c] - 1])
      && (s'.closed != s.closed <==> s.counters[c] == 1)
      && (s'.ends != s.ends <==> s'.nof == 0)
  {
    hide Law, Apply;
    Usable(s, h);
    StepKeepsLaw(s, Destroy(h));
    DestroyView(s, h);
  }

  // ----- whole runs

  /** The reference law holds in every state of every run, self-assignments included. */
  lemma {:induction false} RunKeepsLaw<H, C>(ops: seq<Op<H, C>>)
    requires Feasible(NoSockets(), ops)
    ensures Law(Run(NoSockets(), ops))
    decreases |ops|
  {
    if ops != [] {
      hide Law, Apply;
      var n := |ops| - 1;
      RunKeepsLaw(ops[..n]);
      StepKeepsLaw(Run(NoSockets(), ops[..n]), ops[n]);
    } else {
      EmptyLaw<H, C>();
    }
  }

  lemma EmptyLaw<H, C>()
    ensures Law<H, C>(NoSockets())
  {
  }

  /** No operation ever touches a freed counter: what an operation needs is only that its
      handles are live. */
  lemma LiveHandlesAreUsable<H, C>(ops: seq<Op<H, C>>)
    requires Feasible(NoSockets(), ops)
    ensures var s := Run(NoSockets(), ops);
      && (forall h :: h in s.handles ==> s.handles[h].counter in s.counters && s.handles[h].counter !in s.freed)
      && (forall h, g :: h in s.handles && g in s.handles && s.handles[h].counter == s.handles[g].counter
            ==> s.handles[h].fd == s.handles[g].fd)
  {
    RunKeepsLaw(ops);
  }

  /** A counter has been freed exactly when it has no live handle and none of its handles was
      ever overwritten. */
  lemma FreedExactly<H, C>(ops: seq<Op<H, C>>, c: C)
    requires Feasible(NoSockets(), ops) && c in Run(NoSockets(), ops).fds
    ensures var s := Run(NoSockets(), ops);
      c in s.freed <==> Live(s.handles, c) == {} && s.overwritten[c] == 0
  {
    RunKeepsLaw(ops);
    FreedInLaw(Run(NoSockets(), ops), c);
  }

  lemma FreedInLaw<H, C>(s: Sockets<H, C>, c: C)
    requires Law(s) && c in s.fds
    ensures c in s.freed <==> Live(s.handles, c) == {} && s.overwritten[c] == 0
  {
    if c in s.freed {
      assert Live(s.handles, c) == {};
    } else if Live(s.handles, c) == {} {
      assert |Live(s.handles, c)| == 0;
    }
  }

  /** A destructor closes the descriptor exactly when its handle is the last of its counter and
      none of the counter's handles was overwritten. */
  lemma ClosesExactly<H, C>(s: Sockets<H, C>, h: H)
    requires Law(s) && h in s.handles
    ensures var c := s.handles[h].counter;
      && c in s.counters
      && Apply(s, Destroy(h)).closed ==
         s.closed + if Live(s.handles, c) == {h} && s.overwritten[c] == 0 then [c] else []
  {
    var c := s.handles[h].counter;
    var live := Live(s.handles, c);
    assert h in live;
    assert |live - {h}| == |live| - 1;
    if live != {h} {
      assert live - {h} != {};
    }
  }

  /** The library is shut down exactly by a destructor that leaves no handle, if there never was
      an assignment or a constructor that threw. */
  lemma EndsExactly<H, C>(s: Sockets<H, C>, op: Op<H, C>)
    requires Law(s) && Enabled(s, op)
    ensures var s' := Apply(s, op);
      s'.ends == s.ends +
        if op.Destroy? && s'.handles == map[] && s'.assignments == 0 && s'.failures == 0 then 1 else 0
  {
    hide Live, Sound, Counted, ClosedOnce;
    TalliedStep(s, op);
    var s' := Apply(s, op);
    if |s'.handles| == 0 {
      assert s'.handles == map[];
    }
  }

  /** Overwriting a handle leaks its counter: it is never freed afterwards. */
  lemma {:induction false} OverwrittenIsLeaked<H, C>(ops: seq<Op<H, C>>, k: nat)
    requires k <= |ops| && Feasible(NoSockets(), ops)
    ensures Feasible(NoSockets(), ops[..k])
    ensures var s, s' := Run(NoSockets(), ops[..k]), Run(NoSockets(), ops);
      && s.overwritten <= s'.overwritten
      && forall c :: c in s.overwritten ==> c in s'.counters && c !in s'.freed
    decreases |ops|
  {
    hide Law, Apply, Enabled;
    if k == |ops| {
      assert ops[..k] == ops;
    } else {
      var n := |ops| - 1;
      OverwrittenIsLeaked(ops[..n], k);
      assert ops[..n][..k] == ops[..k];
      OverwrittenOnlyGrows(Run(NoSockets(), ops[..n]), ops[n]);
    }
    RunKeepsLaw(ops);
    OverwrittenAllocated(Run(NoSockets(), ops));
  }

  lemma OverwrittenOnlyGrows<H, C>(s: Sockets<H, C>, op: Op<H, C>)
    requires Enabled(s, op)
    ensures s.overwritten <= Apply(s, op).overwritten
  {
  }

  lemma OverwrittenAllocated<H, C>(s: Sockets<H, C>)
    requires Law(s)
    ensures forall c :: c in s.overwritten ==> c in s.counters && c !in s.freed
  {
  }

  // ----- the run that breaks the textbook law

  lemma RunSnoc<H, C>(s: Sockets<H, C>, ops: seq<Op<H, C>>, op: Op<H, C>)
    requires Feasible(s, ops) && Enabled(Run(s, ops), op)
    ensures Feasible(s, ops + [op]) && Run(s, ops + [op]) == Apply(Run(s, ops), op)
  {
    assert (ops + [op])[..|ops|] == ops;
  }

  /** Two handles, the first assigned from the second, both destroyed. */
  const ASSIGN_AND_DESTROY: seq<Op<nat, nat>> :=
    [Construct(0, 0, 3), Construct(1, 1, 4), Assign(0, 1), Destroy(0), Destroy(1)]

  /** The states of that run. */
  function AssignAndDestroyState(i: nat): Sockets<nat, nat>
  {
    var a, b := Handle(0, 3), Handle(1, 4);
    match i
    case 0 => NoSockets()
    case 1 => Sockets(map[0 := a], map[0 := 1], 1, {}, multiset{}, map[0 := 3], [], 0, 0, 0)
    case 2 => Sockets(map[0 := a, 1 := b], map[0 := 1, 1 := 1], 2, {}, multiset{}, map[0 := 3, 1 := 4], [], 0, 0, 0)
    case 3 => Sockets(map[0 := b, 1 := b], map[0 := 1, 1 := 2], 3, {}, multiset{0}, map[0 := 3, 1 := 4], [], 1, 0, 0)
    case 4 => Sockets(map[1 := b], map[0 := 1, 1 := 1], 2, {}, multiset{0}, map[0 := 3, 1 := 4], [], 1, 0, 0)
    case _ => Sockets(map[], map[0 := 1], 1, {1}, multiset{0}, map[0 := 3, 1 := 4], [1], 1, 0, 0)
  }

  lemma AssignAndDestroyStep(i: nat)
    requires i < 5
    ensures Step(AssignAndDestroyState(i), ASSIGN_AND_DESTROY[i], AssignAndDestroyState(i + 1))
  {
    if i == 0 {
    } else if i == 1 {
    } else if i == 2 {
    } else if i == 3 {
      assert map[0 := Handle(1, 4), 1 := Handle(1, 4)] - {0} == map[1 := Handle(1, 4)];
    } else {
      assert map[1 := Handle(1, 4)] - {1} == map[];
      assert map[0 := 1, 1 := 1] - {1} == map[0 := 1];
    }
  }

  lemma {:induction false} AssignAndDestroyRun(n: nat)
    requires n <= 5
    ensures Feasible(NoSockets(), ASSIGN_AND_DESTROY[..n])
    ensures Run(NoSockets(), ASSIGN_AND_DESTROY[..n]) == AssignAndDestroyState(n)
  {
    hide Apply, Enabled;
    if n > 0 {
      AssignAndDestroyRun(n - 1);
      AssignAndDestroyStep(n - 1);
      assert ASSIGN_AND_DESTROY[..n] == ASSIGN_AND_DESTROY[..n - 1] + [ASSIGN_AND_DESTROY[n - 1]];
      RunSnoc(NoSockets(), ASSIGN_AND_DESTROY[..n - 1], ASSIGN_AND_DESTROY[n - 1]);
    }
  }

  /** One assignment is enough: no handle is left, yet one counter was never freed, its
      descriptor never closed, and the library never shut down. */
  lemma AssignmentLeaks()
    ensures Feasible(NoSockets(), ASSIGN_AND_DESTROY)
    ensures var s := Run(NoSockets(), ASSIGN_AND_DESTROY);
      s.handles == map[] && 0 in s.counters && 0 !in s.freed && s.closed == [1] && s.nof == 1 && s.ends == 0
  {
    AssignAndDestroyRun(5);
    assert ASSIGN_AND_DESTROY[..5] == ASSIGN_AND_DESTROY;
  }

  // ----- descriptors

  /** Every descriptor a constructor is given is not open under another counter. */
  ghost predicate FreshDescriptor<H, C>(s: Sockets<H, C>, op: Op<H, C>)
  {
    op.Construct? ==> forall c :: c in s.counters && c in s.fds ==> s.fds[c] != op.fd
  }

  ghost predicate FreshDescriptors<H, C>(s: Sockets<H, C>, ops: seq<Op<H, C>>)
    requires Feasible(s, ops)
    decreases |ops|
  {
    ops == [] ||
    (var n := |ops| - 1; FreshDescriptors(s, ops[..n]) && FreshDescriptor(Run(s, ops[..n]), ops[n]))
  }

  ghost predicate OwnDescriptors<H, C>(s: Sockets<H, C>)
  {
    forall c, d :: c in s.counters && d in s.counters && c in s.fds && d in s.fds && c != d ==> s.fds[c] != s.fds[d]
  }

  lemma OwnDescriptorsStep<H, C>(s: Sockets<H, C>, op: Op<H, C>)
    requires Sound(s) && OwnDescriptors(s) && Enabled(s, op) && FreshDescriptor(s, op)
    ensures OwnDescriptors(Apply(s, op))
  {
  }

  lemma {:induction false} RunOwnsDescriptors<H, C>(ops: seq<Op<H, C>>)
    requires Feasible(NoSockets(), ops) && FreshDescriptors(NoSockets(), ops)
    ensures OwnDescriptors(Run(NoSockets(), ops))
    decreases |ops|
  {
    if ops != [] {
      hide OwnDescriptors, Apply, Enabled, FreshDescriptor;
      var n := |ops| - 1;
      RunOwnsDescriptors(ops[..n]);
      RunKeepsLaw(ops[..n]);
      OwnDescriptorsStep(Run(NoSockets(), ops[..n]), ops[n]);
    } else {
      EmptyOwns<H, C>();
    }
  }

  lemma EmptyOwns<H, C>()
    ensures OwnDescriptors<H, C>(NoSockets())
  {
  }

  /** With descriptors that are not open elsewhere, no destructor closes one that a live handle
      still uses. */
  lemma CloseHitsNoLiveHandle<H, C>(ops: seq<Op<H, C>>, h: H)
    requires Feasible(NoSockets(), ops) && FreshDescriptors(NoSockets(), ops)
    requires h in Run(NoSockets(), ops).handles
    ensures var s := Run(NoSockets(), ops);
      && Enabled(s, Destroy(h))
      && var s' := Apply(s, Destroy(h));
      s'.closed != s.closed ==> forall g :: g in s'.handles ==> s'.handles[g].fd != s.handles[h].fd
  {
    RunKeepsLaw(ops);
    RunOwnsDescriptors(ops);
    StepKeepsLaw(Run(NoSockets(), ops), Destroy(h));
    CloseIsPrivate(Run(NoSockets(), ops), h);
  }

  lemma CloseIsPrivate<H, C>(s: Sockets<H, C>, h: H)
    requires Law(s) && OwnDescriptors(s) && Enabled(s, Destroy(h)) && Law(Apply(s, Destroy(h)))
    ensures var s' := Apply(s, Destroy(h));
      s'.closed != s.closed ==> forall g :: g in s'.handles ==> s'.handles[g].fd != s.handles[h].fd
  {
    hide Live, Counted, Tallied, ClosedOnce;
    var s' := Apply(s, Destroy(h));
    forall g | g in s'.handles && s'.closed != s.closed
      ensures s'.handles[g].fd != s.handles[h].fd
    {
      var c, d := s.handles[h].counter, s'.handles[g].counter;
      assert c !in s'.counters && d in s'.counters;
    }
  }
}
