/** Socket handles that share a counter, as a state machine. `H` identifies handles, `C` the
    heap cells that hold the counters. */
module SocketModel {

  datatype Handle<C(==)> = Handle(counter: C, fd: int)

  /** The live handles, the allocated counters and the global count; the rest keeps the books:
      the counters freed so far, how often a handle of a counter was overwritten by assignment,
      the descriptor each counter was made for, the closes in order, and three tallies. */
  datatype Sockets<H(==), C(==)> = Sockets(
    handles: map<H, Handle<C>>, counters: map<C, int>, nof: int,
    freed: set<C>, overwritten: multiset<C>, fds: map<C, int>, closed: seq<C>,
    assignments: nat, failures: nat, ends: nat)

  datatype Op<H(==), C(==)> =
    | Construct(h: H, c: C, fd: int)
    /** The system gives no descriptor and the constructor throws after counting the handle. */
    | Refused
    | Copy(h: H, o: H)
    | Assign(h: H, o: H)
    | Destroy(h: H)

  ghost predicate Enabled<H, C>(s: Sockets<H, C>, op: Op<H, C>)
  {
    match op
    case Construct(h, c, _) => h !in s.handles && c !in s.fds
    case Refused => true
    case Copy(h, o) => h !in s.handles && o in s.handles && s.handles[o].counter in s.counters
    case Assign(h, o) => h in s.handles && o in s.handles && s.handles[o].counter in s.counters
    case Destroy(h) => h in s.handles && s.handles[h].counter in s.counters
  }

  ghost function Apply<H, C>(s: Sockets<H, C>, op: Op<H, C>): Sockets<H, C>
    requires Enabled(s, op)
  {
    match op
    case Construct(h, c, fd) =>
      s.(handles := s.handles[h := Handle(c, fd)], counters := s.counters[c := 1],
         nof := s.nof + 1, fds := s.fds[c := fd])
    case Refused => s.(nof := s.nof + 1, failures := s.failures + 1)
    case Copy(h, o) =>
      var c := s.handles[o].counter;
      s.(handles := s.handles[h := s.handles[o]], counters := s.counters[c := s.counters[c] + 1],
         nof := s.nof + 1)
    case Assign(h, o) =>
      var c := s.handles[o].counter;
      s.(handles := s.handles[h := s.handles[o]], counters := s.counters[c := s.counters[c] + 1],
         nof := s.nof + 1,
         overwritten := s.overwritten + multiset{s.handles[h].counter}, assignments := s.assignments + 1)
    case Destroy(h) =>
      var c := s.handles[h].counter;
      var n := s.counters[c] - 1;
      var s' := s.(handles := s.handles - {h}, nof := s.nof - 1,
                   ends := s.ends + if s.nof - 1 == 0 then 1 else 0);
      if n == 0 then
        s'.(counters := s.counters - {c}, freed := s.freed + {c}, closed := s.closed + [c])
      else s'.(counters := s.counters[c := n])
  }

  /** One operation leads from `s` to `s'`. */
  ghost predicate Step<H, C>(s: Sockets<H, C>, op: Op<H, C>, s': Sockets<H, C>)
  {
    Enabled(s, op) && s' == Apply(s, op)
  }

  ghost predicate Feasible<H, C>(s: Sockets<H, C>, ops: seq<Op<H, C>>)
    decreases |ops|, 0
  {
    ops == [] ||
    (var n := |ops| - 1; Feasible(s, ops[..n]) && Enabled(Run(s, ops[..n]), ops[n]))
  }

  ghost function Run<H, C>(s: Sockets<H, C>, ops: seq<Op<H, C>>): Sockets<H, C>
    requires Feasible(s, ops)
    decreases |ops|, 1
  {
    if ops == [] then s else var n := |ops| - 1; Apply(Run(s, ops[..n]), ops[n])
  }

  function NoSockets<H(==), C(==)>(): Sockets<H, C>
  {
    Sockets(map[], map[], 0, {}, multiset{}, map[], [], 0, 0, 0)
  }
}
