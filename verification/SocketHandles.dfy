/** The `Socket` class: handles for a descriptor that share a heap counter. The ghost `Books` of
    the library mirror every live handle, every allocated counter and the global count; each
    method performs exactly one step of the state machine on them. */
module SocketHandles {
  import opened Options
  import opened SocketModel
  import opened SocketLaws

  /** A counter on the heap. */
  class Counter {
    var value: int

    constructor (n: int)
      ensures value == n
    {
      value := n;
    }
  }

  /** The static part of the class, with what surrounds it. */
  class SocketLibrary {
    var nofSockets_: int

    ghost var Books: Sockets<Socket, Counter>

    ghost predicate Valid()
      reads this, Books.handles.Keys, Books.counters.Keys
    {
      && Law(Books)
      && nofSockets_ == Books.nof
      && (forall h :: h in Books.handles ==>
            h.refCounter_ == Books.handles[h].counter && h.s_ == Books.handles[h].fd)
      && (forall c :: c in Books.counters ==> c.value == Books.counters[c])
    }

    constructor ()
      ensures Valid() && Books == NoSockets()
    {
      nofSockets_ := 0;
      Books := NoSockets();
    }

    method Start()
      modifies this`nofSockets_
      ensures nofSockets_ == old(nofSockets_) + 1
    {
      nofSockets_ := nofSockets_ + 1;
    }

    /** The default constructor. The system may refuse a descriptor; then the constructor throws,
        here by returning null, after the library has counted it. */
    method NewSocket(descriptor: Option<int>) returns (r: Socket?)
      requires Valid()
      modifies this
      ensures Valid() && (r == null <==> descriptor == None)
      ensures r != null ==>
                && fresh(r) && fresh(r.refCounter_)
                && Step(old(Books), Construct(r, r.refCounter_, descriptor.value), Books)
      ensures r == null ==> Step(old(Books), Refused, Books)
      ensures nofSockets_ == old(nofSockets_) + 1
    {
      hide Law, Apply, Enabled;
      if descriptor == None {
        Start();
        AfterRefused(Books);
        Books := Apply(Books, Refused);
        return null;
      }
      r := new Socket(descriptor.value, this);
    }
  }

  class Socket {
    var s_: int
    var refCounter_: Counter

    constructor (s: int, lib: SocketLibrary)
      requires lib.Valid()
      modifies lib
      ensures lib.Valid() && fresh(refCounter_)
      ensures Step(old(lib.Books), Construct(this, refCounter_, s), lib.Books)
      ensures s_ == s && refCounter_.value == 1 && lib.nofSockets_ == old(lib.nofSockets_) + 1
    {
      hide Law, Apply, Enabled;
      s_ := s;
      refCounter_ := new Counter(1);
      new;
      AfterConstruct(lib.Books, this, refCounter_, s);
      lib.Start();
      lib.Books := Apply(lib.Books, Construct(this, refCounter_, s));
    }

    constructor Copy(o: Socket, lib: SocketLibrary)
      requires lib.Valid() && o in lib.Books.handles
      modifies lib, o.refCounter_
      ensures lib.Valid()
      ensures Step(old(lib.Books), Op.Copy(this, o), lib.Books)
      ensures s_ == o.s_ && refCounter_ == o.refCounter_
      ensures refCounter_.value == old(o.refCounter_.value) + 1 && lib.nofSockets_ == old(lib.nofSockets_) + 1
    {
      hide Law, Apply, Enabled;
      refCounter_ := o.refCounter_;
      s_ := o.s_;
      new;
      AfterShare(lib.Books, Op.Copy(this, o));
      refCounter_.value := refCounter_.value + 1;
      lib.nofSockets_ := lib.nofSockets_ + 1;
      lib.Books := Apply(lib.Books, Op.Copy(this, o));
    }

    /** Assignment joins the other counter and never leaves its own. */
    method Assign(o: Socket, lib: SocketLibrary)
      requires lib.Valid() && this in lib.Books.handles && o in lib.Books.handles
      modifies this, lib, o.refCounter_
      ensures lib.Valid()
      ensures Step(old(lib.Books), Op.Assign(this, o), lib.Books)
      ensures s_ == old(o.s_) && refCounter_ == old(o.refCounter_)
      ensures refCounter_.value == old(o.refCounter_.value) + 1 && lib.nofSockets_ == old(lib.nofSockets_) + 1
    {
      hide Law, Apply, Enabled;
      AfterShare(lib.Books, Op.Assign(this, o));
      o.refCounter_.value := o.refCounter_.value + 1;
      refCounter_ := o.refCounter_;
      s_ := o.s_;
      lib.nofSockets_ := lib.nofSockets_ + 1;
      lib.Books := Apply(lib.Books, Op.Assign(this, o));
    }

    /** The destructor. Reports the descriptor it closed, if any, and whether it shut the library
        down. */
    method Destroy(lib: SocketLibrary) returns (closed: Option<int>, end: bool)
      requires lib.Valid() && this in lib.Books.handles
      modifies lib, refCounter_
      ensures lib.Valid()
      ensures Step(old(lib.Books), Op.Destroy(this), lib.Books)
      ensures closed == if lib.Books.closed != old(lib.Books.closed) then Some(s_) else None
      ensures end <==> lib.Books.ends != old(lib.Books.ends)
      ensures refCounter_.value == old(refCounter_.value) - 1 && lib.nofSockets_ == old(lib.nofSockets_) - 1
      ensures closed == (if refCounter_.value == 0 then Some(s_) else None)
      ensures end <==> lib.nofSockets_ == 0
    {
      hide Law, Apply, Enabled;
      AfterDestroy(lib.Books, this);
      closed, end := None, false;
      refCounter_.value := refCounter_.value - 1;
      if refCounter_.value == 0 {
        closed := Some(s_);
      }
      lib.nofSockets_ := lib.nofSockets_ - 1;
      if lib.nofSockets_ == 0 {
        end := true;
      }
      lib.Books := Apply(lib.Books, Op.Destroy(this));
    }
  }
}
