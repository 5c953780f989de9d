/** Admission control in front of the `/api/bad-apple` proxy: a counter of
    open forwarded connections and a ceiling. A request that finds the
    counter at the ceiling is answered with 429 at once; an admitted one
    raises the counter, and the close of its response lowers it again. */
module Gate {

  const MaxConnections: int := 2
  const TooManyStatus: int := 429
  const TooManyBody: string := "Too many connections"

  /** The middleware's answer to one request: pass it on to the proxy, or
      reject it with a status and a plain-text body. */
  datatype Verdict = Admitted | Rejected(status: int, body: string)

  /** The admission decision, taken on the counter as the request finds it. */
  function Decide(active: int): (v: Verdict)
    ensures v.Admitted? <==> active < MaxConnections
    ensures v.Rejected? ==> v.status == 429 && v.body == "Too many connections"
  {
    if active >= MaxConnections then Rejected(TooManyStatus, TooManyBody) else Admitted
  }

  // ---------------------------------------------------------------------
  // The gate over a sequence of events

  /** A request arriving on connection `conn`, or that connection's
      response closing. */
  datatype Event = Arrive(conn: nat) | Close(conn: nat)

  /** The counter together with the connections admitted and not yet
      closed, each of which holds one registered close listener. */
  datatype GateState = GateState(active: int, open: multiset<nat>)

  const Start: GateState := GateState(0, multiset{})

  /** One event. An arrival is admitted below the ceiling and registers its
      close listener; a close runs the listener of an admitted connection.
      A close of a connection that was never admitted finds no listener and
      changes nothing. */
  function Step(s: GateState, e: Event): (t: GateState)
    ensures t.active - s.active == |t.open| - |s.open|
    ensures e.Arrive? ==> t.active == if s.active < MaxConnections then s.active + 1 else s.active
    ensures e.Arrive? && s.active >= MaxConnections ==> t == s
    ensures e.Close? ==> t.active == if e.conn in s.open then s.active - 1 else s.active
    ensures e.Close? ==> e.conn !in s.open ==> t == s
  {
    match e
    case Arrive(c) =>
      if Decide(s.active).Admitted? then GateState(s.active + 1, s.open + multiset{c}) else s
    case Close(c) =>
      if c in s.open then GateState(s.active - 1, s.open - multiset{c}) else s
  }

  /** The state after a sequence of events, in order. The counter moves in
      step with the set of open admitted connections. */
  function Run(s: GateState, es: seq<Event>): (t: GateState)
    ensures t.active - s.active == |t.open| - |s.open|
    ensures es == [] ==> t == s
    decreases |es|
  {
    if es == [] then s else Run(Step(s, es[0]), es[1..])
  }

  // ---------------------------------------------------------------------
  // The gate as the server holds it

  /** The process-wide counter, changed by the middleware and by the close
      listener it registers on each admitted response. The ghost `open`
      names the admitted connections whose listener has not yet run. */
  class ConnectionGate {
    var active: int
    ghost var open: multiset<nat>

    ghost predicate Valid()
      reads this
    {
      active == |open| && 0 <= active <= MaxConnections
    }

    constructor ()
      ensures Valid() && active == 0 && open == multiset{}
    {
      active := 0;
      open := multiset{};
    }

    /** A request on connection `c` reaching the middleware: rejected with
        the counter unchanged, or admitted with the counter one higher and
        a close listener registered for `c`. */
    method TryAdmit(ghost c: nat) returns (v: Verdict)
      requires Valid()
      modifies this
      ensures Valid()
      ensures v == Decide(old(active))
      ensures active == if v.Admitted? then old(active) + 1 else old(active)
      ensures GateState(active, open) == Step(old(GateState(active, open)), Arrive(c))
    {
      if active >= MaxConnections {
        v := Rejected(TooManyStatus, TooManyBody);
        return;
      }
      active := active + 1;
      open := open + multiset{c};
      v := Admitted;
    }

    /** The close listener of admitted connection `c`. Only an admission
        registers it, and a response closes once. */
    method Release(ghost c: nat)
      requires Valid() && c in open
      modifies this
      ensures Valid()
      ensures active == old(active) - 1
      ensures GateState(active, open) == Step(old(GateState(active, open)), Close(c))
    {
      active := active - 1;
      open := open - multiset{c};
    }
  }

  /** Two requests are admitted, a third is turned away while both are
      open, and once the first closes a fourth is admitted again. */
  method SlotReuse() returns (a: Verdict, b: Verdict, c: Verdict, d: Verdict)
    ensures a == Admitted && b == Admitted
    ensures c == Rejected(429, "Too many connections")
    ensures d == Admitted
  {
    var gate := new ConnectionGate();
    a := gate.TryAdmit(1);
    b := gate.TryAdmit(2);
    c := gate.TryAdmit(3);
    gate.Release(1);
    d := gate.TryAdmit(4);
  }

  /** The counter is exactly the number of open admitted connections, and
      it stays within the ceiling. */
  ghost predicate Inv(s: GateState)
  {
    s.active == |s.open| && 0 <= s.active <= MaxConnections
  }

  lemma StepKeepsInv(s: GateState, e: Event)
    requires Inv(s)
    ensures Inv(Step(s, e))
  {
  }

  /** Whatever happens, the counter never exceeds the ceiling and never
      drifts from the number of open connections: nothing leaks. */
  lemma {:induction false} RunKeepsInv(s: GateState, es: seq<Event>)
    requires Inv(s)
    ensures Inv(Run(s, es))
    decreases |es|
  {
    if es != [] {
      StepKeepsInv(s, es[0]);
      RunKeepsInv(Step(s, es[0]), es[1..]);
    }
  }

  /** A rejected request changes nothing. */
  lemma RejectKeepsState(s: GateState, c: nat)
    requires s.active >= MaxConnections
    ensures Step(s, Arrive(c)) == s
  {
  }

  /** Closing an admitted connection brings the whole state back to what
      it was before that connection was admitted. */
  lemma AdmitThenCloseRestores(s: GateState, c: nat)
    requires s.active < MaxConnections
    ensures Step(s, Arrive(c)).active == s.active + 1
    ensures Step(Step(s, Arrive(c)), Close(c)) == s
  {
  }

  /** The sequence admit A, admit B, reject C, close A, admit D: C is left
      out and D holds the slot A gave back. */
  lemma SlotReuseTrace()
    ensures Run(Start, [Arrive(1), Arrive(2), Arrive(3), Close(1), Arrive(4)])
         == GateState(2, multiset{2, 4})
  {
  }
}
