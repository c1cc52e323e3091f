/** Cancellation of a query and its callbacks (include/query/QueryCancellation.h).
    Any thread may request cancellation; each client registers one callback, which
    carries its number, and may unregister it again. One step is one access to
    shared state; `busy` is the client that holds the mutex. */
module Cancellation {
  import opened Wrappers
  import opened Sequences

  datatype ClientPc =
    | Away                             // outside onCancel
    | Reading                          // holds the mutex, about to read the flag
    | Decided(now: bool)               // holds the mutex, read the flag
    | Invoking                         // released; the flag was set: about to call back
    | Held(id: nat)                    // onCancel returned; id 0 was never registered
    | Reset(id: nat, early: bool)      // unregistered; `early`: before the callbacks were copied

  /** The one request that won the exchange, and the callbacks it has still to make. */
  datatype Phase = NotRequested | Requested | Calling(todo: seq<nat>)

  datatype State = State(
    cancelled: bool, phase: Phase, busy: Option<nat>, nextId: nat,
    callbacks: map<nat, nat>, clients: seq<ClientPc>, invoked: seq<nat>)

  datatype Step =
    | Request        // any thread: the exchange
    | Copy           // the winner: copies the callbacks under the mutex
    | Call           // the winner: makes the next call
    | Register(c: nat)
    | Client(c: nat) // the next step of a client inside onCancel
    | Unregister(c: nat)

  function Init(clients: nat): State { State(false, NotRequested, None, 1, map[], seq(clients, _ => Away), []) }

  predicate Enabled(s: State, a: Step) {
    match a
    case Request => true
    case Copy => s.phase.Requested? && s.busy.None?
    case Call => s.phase.Calling? && s.phase.todo != []
    case Register(c) => c < |s.clients| && s.clients[c].Away? && s.busy.None?
    case Client(c) => c < |s.clients| && (s.clients[c].Reading? || s.clients[c].Decided? || s.clients[c].Invoking?)
    case Unregister(c) => c < |s.clients| && s.clients[c].Held? && s.busy.None?
  }

  /** The callbacks in the order of their ids. */
  function InOrder(callbacks: map<nat, nat>, ids: nat): seq<nat> {
    if ids == 0 then []
    else InOrder(callbacks, ids - 1) + if ids - 1 in callbacks then [callbacks[ids - 1]] else []
  }

  function Below(callbacks: map<nat, nat>, id: nat): set<nat> { set i | i in callbacks && i < id }

  lemma {:induction false} InOrderSize(callbacks: map<nat, nat>, ids: nat)
    ensures |InOrder(callbacks, ids)| == |Below(callbacks, ids)|
  {
    if ids > 0 {
      InOrderSize(callbacks, ids - 1);
      var last := if ids - 1 in callbacks then {ids - 1} else {};
      assert Below(callbacks, ids) == Below(callbacks, ids - 1) + last;
    } else {
      assert Below(callbacks, ids) == {};
    }
  }

  /** A callback is called behind exactly those with smaller ids. */
  lemma {:induction false} InOrderAt(callbacks: map<nat, nat>, ids: nat, id: nat)
    requires id in callbacks && id < ids
    ensures |Below(callbacks, id)| < |InOrder(callbacks, ids)| && InOrder(callbacks, ids)[|Below(callbacks, id)|] == callbacks[id]
  {
    InOrderSize(callbacks, ids - 1);
    if id < ids - 1 { InOrderAt(callbacks, ids - 1, id); }
  }

  function ClientGoes(s: State, c: nat): ClientPc
    requires c < |s.clients|
  {
    match s.clients[c]
    case Reading => Decided(s.cancelled)
    case Decided(now) => if now then Invoking else Held(s.nextId)
    case Invoking => Held(0)
    case pc => pc
  }

  function Next(s: State, a: Step): State
    requires Enabled(s, a)
  {
    match a
    case Request => s.(cancelled := true, phase := if s.cancelled then s.phase else Requested)
    case Copy => s.(phase := Calling(InOrder(s.callbacks, s.nextId)))
    case Call => s.(phase := Calling(s.phase.todo[1..]), invoked := s.invoked + [s.phase.todo[0]])
    case Register(c) => s.(busy := Some(c), clients := s.clients[c := Reading])
    case Client(c) =>
      var registers := s.clients[c] == Decided(false);
      s.(busy := if s.clients[c].Decided? then None else s.busy,
         nextId := if registers then s.nextId + 1 else s.nextId,
         callbacks := if registers then s.callbacks[s.nextId := c] else s.callbacks,
         invoked := if s.clients[c].Invoking? then s.invoked + [c] else s.invoked,
         clients := s.clients[c := ClientGoes(s, c)])
    case Unregister(c) =>
      var id := s.clients[c].id;
      s.(callbacks := s.callbacks - {id}, clients := s.clients[c := Reset(id, id != 0 && !s.phase.Calling?)])
  }

  /** The state after some more steps; None when one of them was not possible. */
  function ExecFrom(s: State, steps: seq<Step>): Option<State>
    decreases |steps|
  {
    if steps == [] then Some(s)
    else if Enabled(s, steps[0]) then ExecFrom(Next(s, steps[0]), steps[1..])
    else None
  }

  function Exec(clients: nat, steps: seq<Step>): Option<State> { ExecFrom(Init(clients), steps) }

  // ----- the invariant ---------------------------------------------------------------

  function Is(c: nat): nat -> bool { x => x == c }

  function Count(xs: seq<nat>, c: nat): nat { CountWhere(xs, Is(c)) }

  /** Only the client that holds the mutex is between taking and releasing it. */
  ghost predicate MutexInv(busy: Option<nat>, clients: seq<ClientPc>) {
    forall c :: 0 <= c < |clients| ==> (clients[c].Reading? || clients[c].Decided? <==> busy == Some(c))
  }

  /** The client has seen the flag, or unregistered too late. */
  predicate Knows(pc: ClientPc) {
    pc == Decided(true) || pc.Invoking? || pc == Held(0) || (pc.Reset? && !pc.early)
  }

  /** Nothing is called back before cancellation is requested. */
  ghost predicate FlagInv(cancelled: bool, phase: Phase, clients: seq<ClientPc>) {
    && (cancelled <==> !phase.NotRequested?)
    && forall c :: 0 <= c < |clients| && Knows(clients[c]) ==> cancelled
  }

  /** Once the callbacks were copied, no client can still decide to register. */
  ghost predicate CopyInv(phase: Phase, clients: seq<ClientPc>) {
    phase.Calling? ==> forall c :: 0 <= c < |clients| ==> clients[c] != Decided(false)
  }

  /** The registered callbacks are those of the clients that hold a registration. */
  ghost predicate MapInv(callbacks: map<nat, nat>, nextId: nat, clients: seq<ClientPc>) {
    && nextId > 0
    && (forall id :: id in callbacks ==> 0 < id < nextId && callbacks[id] < |clients| && clients[callbacks[id]] == Held(id))
    && forall c :: 0 <= c < |clients| && Registered(clients[c]) ==>
         clients[c].id in callbacks && callbacks[clients[c].id] == c
  }

  function Todo(phase: Phase): seq<nat> { if phase.Calling? then phase.todo else [] }

  /** How often a client is called back, counting the calls still to be made. */
  function Owed(pc: ClientPc, phase: Phase): nat {
    match pc
    case Held(id) => if id == 0 || phase.Calling? then 1 else 0
    case Reset(id, early) => if early then 0 else 1
    case _ => 0
  }

  ghost predicate CallInv(phase: Phase, clients: seq<ClientPc>, invoked: seq<nat>) {
    forall c :: 0 <= c < |clients| ==> Count(invoked, c) + Count(Todo(phase), c) == Owed(clients[c], phase)
  }

  ghost predicate Inv(s: State) {
    && MutexInv(s.busy, s.clients) && FlagInv(s.cancelled, s.phase, s.clients) && CopyInv(s.phase, s.clients)
    && MapInv(s.callbacks, s.nextId, s.clients) && CallInv(s.phase, s.clients, s.invoked)
  }

  lemma {:induction false} CopiedOnce(callbacks: map<nat, nat>, nextId: nat, clients: seq<ClientPc>, ids: nat, c: nat)
    requires MapInv(callbacks, nextId, clients) && c < |clients|
    ensures Count(InOrder(callbacks, ids), c) == if clients[c].Held? && 0 < clients[c].id < ids then 1 else 0
  {
    if ids > 0 {
      CopiedOnce(callbacks, nextId, clients, ids - 1, c);
      var last := if ids - 1 in callbacks then [callbacks[ids - 1]] else [];
      CountConcat(InOrder(callbacks, ids - 1), last, Is(c));
      assert last != [] ==> last[..0] == [];
    }
  }

  lemma SmallInvsKept(s: State, a: Step)
    requires Inv(s) && Enabled(s, a)
    ensures MutexInv(Next(s, a).busy, Next(s, a).clients)
    ensures FlagInv(Next(s, a).cancelled, Next(s, a).phase, Next(s, a).clients)
    ensures CopyInv(Next(s, a).phase, Next(s, a).clients)
  {
  }

  /** The client holds a registration. */
  predicate Registered(pc: ClientPc) { pc.Held? && pc.id != 0 }

  lemma MapAfterOther(callbacks: map<nat, nat>, nextId: nat, clients: seq<ClientPc>, d: nat, pc: ClientPc)
    requires MapInv(callbacks, nextId, clients) && d < |clients| && !Registered(clients[d]) && !Registered(pc)
    ensures MapInv(callbacks, nextId, clients[d := pc])
  {
  }

  lemma MapAfterRegister(callbacks: map<nat, nat>, nextId: nat, clients: seq<ClientPc>, d: nat)
    requires MapInv(callbacks, nextId, clients) && d < |clients| && !Registered(clients[d])
    ensures MapInv(callbacks[nextId := d], nextId + 1, clients[d := Held(nextId)])
  {
  }

  lemma MapAfterUnregister(callbacks: map<nat, nat>, nextId: nat, clients: seq<ClientPc>, d: nat, pc: ClientPc)
    requires MapInv(callbacks, nextId, clients) && d < |clients| && clients[d].Held? && !pc.Held?
    ensures MapInv(callbacks - {clients[d].id}, nextId, clients[d := pc])
  {
  }

  lemma MapInvKept(s: State, a: Step)
    requires Inv(s) && Enabled(s, a)
    ensures MapInv(Next(s, a).callbacks, Next(s, a).nextId, Next(s, a).clients)
  {
    match a
    case Register(c) => MapAfterOther(s.callbacks, s.nextId, s.clients, c, Reading);
    case Client(c) =>
      if s.clients[c] == Decided(false) {
        MapAfterRegister(s.callbacks, s.nextId, s.clients, c);
      } else {
        MapAfterOther(s.callbacks, s.nextId, s.clients, c, ClientGoes(s, c));
      }
    case Unregister(c) => MapAfterUnregister(s.callbacks, s.nextId, s.clients, c, Next(s, a).clients[c]);
    case _ =>
  }

  /** The calls of one client after a step of the winner. */
  lemma CallMade(invoked: seq<nat>, todo: seq<nat>, c: nat)
    requires todo != []
    ensures Count(invoked + [todo[0]], c) + Count(todo[1..], c) == Count(invoked, c) + Count(todo, c)
  {
    assert todo == [todo[0]] + todo[1..];
    CountConcat([todo[0]], todo[1..], Is(c));
    CountConcat(invoked, [todo[0]], Is(c));
  }

  lemma CountOne(invoked: seq<nat>, d: nat, c: nat)
    ensures Count(invoked + [d], c) == Count(invoked, c) + if d == c then 1 else 0
  {
    CountMore(invoked, Is(c), d);
  }

  lemma CallsAfterCopy(s: State)
    requires Inv(s) && Enabled(s, Copy)
    ensures CallInv(Calling(InOrder(s.callbacks, s.nextId)), s.clients, s.invoked)
  {
    forall c | 0 <= c < |s.clients|
      ensures Count(s.invoked, c) + Count(InOrder(s.callbacks, s.nextId), c) == Owed(s.clients[c], Calling(InOrder(s.callbacks, s.nextId)))
    {
      assert Count(s.invoked, c) + Count([], c) == Owed(s.clients[c], s.phase);
      CopiedOnce(s.callbacks, s.nextId, s.clients, s.nextId, c);
    }
  }

  lemma CallsAfterCall(phase: Phase, clients: seq<ClientPc>, invoked: seq<nat>)
    requires CallInv(phase, clients, invoked) && phase.Calling? && phase.todo != []
    ensures CallInv(Calling(phase.todo[1..]), clients, invoked + [phase.todo[0]])
  {
    forall c | 0 <= c < |clients|
      ensures Count(invoked + [phase.todo[0]], c) + Count(phase.todo[1..], c) == Owed(clients[c], Calling(phase.todo[1..]))
    {
      CallMade(invoked, phase.todo, c);
    }
  }

  lemma CallsAfterClient(phase: Phase, clients: seq<ClientPc>, invoked: seq<nat>, d: nat, pc: ClientPc, called: bool)
    requires CallInv(phase, clients, invoked) && d < |clients|
    requires Owed(pc, phase) == Owed(clients[d], phase) + if called then 1 else 0
    ensures CallInv(phase, clients[d := pc], if called then invoked + [d] else invoked)
  {
    forall c | 0 <= c < |clients|
      ensures Count(if called then invoked + [d] else invoked, c) + Count(Todo(phase), c) == Owed(clients[d := pc][c], phase)
    {
      CountOne(invoked, d, c);
    }
  }

  lemma CallInvKept(s: State, a: Step)
    requires Inv(s) && Enabled(s, a)
    ensures CallInv(Next(s, a).phase, Next(s, a).clients, Next(s, a).invoked)
  {
    match a
    case Request =>
    case Copy => CallsAfterCopy(s);
    case Call => CallsAfterCall(s.phase, s.clients, s.invoked);
    case Register(c) => CallsAfterClient(s.phase, s.clients, s.invoked, c, Reading, false);
    case Client(c) => CallsAfterClient(s.phase, s.clients, s.invoked, c, ClientGoes(s, c), s.clients[c].Invoking?);
    case Unregister(c) =>
      var id := s.clients[c].id;
      CallsAfterClient(s.phase, s.clients, s.invoked, c, Reset(id, id != 0 && !s.phase.Calling?), false);
  }

  lemma InvKept(s: State, a: Step)
    requires Inv(s) && Enabled(s, a)
    ensures Inv(Next(s, a)) && |Next(s, a).clients| == |s.clients|
  {
    SmallInvsKept(s, a);
    MapInvKept(s, a);
    CallInvKept(s, a);
  }

  lemma {:induction false} InvFrom(s: State, steps: seq<Step>)
    requires Inv(s) && ExecFrom(s, steps).Some?
    ensures Inv(ExecFrom(s, steps).value) && |ExecFrom(s, steps).value.clients| == |s.clients|
    decreases |steps|
  {
    if steps != [] {
      InvKept(s, steps[0]);
      InvFrom(Next(s, steps[0]), steps[1..]);
    }
  }

  lemma InvAlways(clients: nat, steps: seq<Step>)
    requires Exec(clients, steps).Some?
    ensures Inv(Exec(clients, steps).value) && |Exec(clients, steps).value.clients| == clients
  {
    InvFrom(Init(clients), steps);
  }

  // ----- the guarantees ------------------------------------------------------------------

  /** In every interleaving a callback runs at most once, and only after a request. */
  lemma AtMostOnce(clients: nat, steps: seq<Step>, c: nat)
    requires Exec(clients, steps).Some? && c < clients
    ensures var s := Exec(clients, steps).value;
            Count(s.invoked, c) <= 1 && (Count(s.invoked, c) == 1 ==> s.cancelled)
  {
    InvAlways(clients, steps);
    var s := Exec(clients, steps).value;
    assert Count(s.invoked, c) + Count(Todo(s.phase), c) == Owed(s.clients[c], s.phase);
  }

  /** Once the winner has made all its calls, exactly the clients that finished
      registering and did not unregister before the callbacks were copied have been
      called back, and each of them once. */
  lemma ExactlyOnceIff(clients: nat, steps: seq<Step>, c: nat)
    requires Exec(clients, steps).Some? && c < clients && Exec(clients, steps).value.phase == Calling([])
    ensures var s := Exec(clients, steps).value;
            c < |s.clients| &&
            (Count(s.invoked, c) == 1 <==> s.clients[c].Held? || (s.clients[c].Reset? && !s.clients[c].early))
  {
    InvAlways(clients, steps);
    var s := Exec(clients, steps).value;
    assert Count(s.invoked, c) + Count(Todo(s.phase), c) == Owed(s.clients[c], s.phase);
  }

  /** The calls that the winner makes in some steps. */
  function Made(s: State, steps: seq<Step>): seq<nat>
    requires ExecFrom(s, steps).Some?
    decreases |steps|
  {
    if steps == [] then []
    else
      var n := Next(s, steps[0]);
      (if steps[0] == Call && |s.invoked| <= |n.invoked| then n.invoked[|s.invoked|..] else []) + Made(n, steps[1..])
  }

  lemma WinnerStep(s: State, a: Step)
    requires s.phase.Calling? && s.cancelled && Enabled(s, a)
    ensures Next(s, a).phase.Calling? && Next(s, a).cancelled
    ensures a == Call ==> Next(s, a).invoked == s.invoked + [s.phase.todo[0]] && Next(s, a).phase.todo == s.phase.todo[1..]
    ensures a != Call ==> Next(s, a).phase == s.phase
  {
  }

  /** Once the callbacks were copied, the winner calls them one by one in their order. */
  lemma {:induction false} WinnerKeepsOrder(s: State, steps: seq<Step>)
    requires s.phase.Calling? && s.cancelled && ExecFrom(s, steps).Some?
    ensures ExecFrom(s, steps).value.phase.Calling?
    ensures s.phase.todo == Made(s, steps) + ExecFrom(s, steps).value.phase.todo
    decreases |steps|
  {
    if steps != [] {
      var n, rest := Next(s, steps[0]), steps[1..];
      WinnerStep(s, steps[0]);
      WinnerKeepsOrder(n, rest);
      var made, left := Made(n, rest), ExecFrom(n, rest).value.phase.todo;
      if steps[0] == Call {
        FirstThenRest(s.phase.todo, made, left);
        assert n.invoked[|s.invoked|..] == [s.phase.todo[0]];
      } else {
        assert [] + made == made;
      }
    }
  }

  lemma FirstThenRest(todo: seq<nat>, made: seq<nat>, left: seq<nat>)
    requires todo != [] && todo[1..] == made + left
    ensures todo == [todo[0]] + made + left
  {
    assert todo == [todo[0]] + todo[1..];
  }

  /** A reset registration stays reset. */
  lemma {:induction false} StaysReset(s: State, steps: seq<Step>, c: nat)
    requires c < |s.clients| && s.clients[c].Reset? && ExecFrom(s, steps).Some?
    ensures var n := ExecFrom(s, steps).value; c < |n.clients| && n.clients[c] == s.clients[c]
    decreases |steps|
  {
    if steps != [] { StaysReset(Next(s, steps[0]), steps[1..], c); }
  }

  /** Unregistering does not wait: when the winner has made all its calls, a client
      has been called after its reset exactly when its call was copied and not made
      yet at the moment of the reset. */
  lemma CalledAfterResetIff(clients: nat, before: seq<Step>, c: nat, more: seq<Step>)
    requires Exec(clients, before).Some? && Enabled(Exec(clients, before).value, Unregister(c))
    requires ExecFrom(Next(Exec(clients, before).value, Unregister(c)), more).Some?
    requires ExecFrom(Next(Exec(clients, before).value, Unregister(c)), more).value.phase == Calling([])
    ensures var s := Exec(clients, before).value;
            var end := ExecFrom(Next(s, Unregister(c)), more).value;
            Count(end.invoked, c) > Count(s.invoked, c) <==> c in Todo(s.phase)
  {
    var s := Exec(clients, before).value;
    var reset := Next(s, Unregister(c));
    var end := ExecFrom(reset, more).value;
    InvAlways(clients, before);
    InvKept(s, Unregister(c));
    InvFrom(reset, more);
    StaysReset(reset, more, c);
    assert Count(reset.invoked, c) + Count(Todo(reset.phase), c) == Owed(reset.clients[c], reset.phase);
    assert Count(end.invoked, c) + Count(Todo(end.phase), c) == Owed(end.clients[c], end.phase);
    CountsMembers(Todo(s.phase), c);
  }

  lemma {:induction false} CountsMembers(xs: seq<nat>, c: nat)
    ensures Count(xs, c) > 0 <==> c in xs
  {
    if xs != [] {
      CountsMembers(xs[..|xs|-1], c);
      assert xs == xs[..|xs|-1] + [xs[|xs|-1]];
    }
  }

  lemma Follow(s: State, a: Step, n: State, rest: seq<Step>)
    requires Enabled(s, a) && Next(s, a) == n
    ensures ExecFrom(s, [a] + rest) == ExecFrom(n, rest)
  {
    assert ([a] + rest)[1..] == rest;
  }

  /** One client that has registered, and a request that came afterwards. */
  function Single(phase: Phase, busy: Option<nat>, pc: ClientPc, registered: bool, invoked: seq<nat>): State {
    State(!phase.NotRequested?, phase, busy, if registered then 2 else 1,
          if registered && pc.Held? then map[1 := 0] else map[], [pc], invoked)
  }

  /** It happens: a run in which the only callback is called after its reset. */
  lemma CallbackAfterReset()
    ensures Exec(1, [Register(0), Client(0), Client(0), Request, Copy]) == Some(Single(Calling([0]), None, Held(1), true, []))
    ensures ExecFrom(Single(Calling([0]), None, Held(1), true, []), [Unregister(0), Call])
            == Some(Single(Calling([]), None, Reset(1, false), true, [0]))
  {
    RegisteredAndCopied();
    Changes(Held(1), Reset(1, false));
    assert map[1 := 0] - {1} == map[] && [0][1..] == [] && [] + [0] == [0];
    Follow(Single(Calling([0]), None, Reset(1, false), true, []), Call, Single(Calling([]), None, Reset(1, false), true, [0]), []);
    Follow(Single(Calling([0]), None, Held(1), true, []), Unregister(0), Single(Calling([0]), None, Reset(1, false), true, []), [Call]);
    assert [Call] + [] == [Call] && [Unregister(0)] + [Call] == [Unregister(0), Call];
  }

  lemma RegisteredAndCopied()
    ensures Exec(1, [Register(0), Client(0), Client(0), Request, Copy]) == Some(Single(Calling([0]), None, Held(1), true, []))
  {
    assert Init(1) == Single(NotRequested, None, Away, false, []) by { assert seq(1, _ => Away) == [Away]; }
    Changes(Away, Reading);
    Changes(Reading, Decided(false));
    Changes(Decided(false), Held(1));
    assert InOrder(map[1 := 0], 2) == [0] by { assert InOrder(map[1 := 0], 1) == []; }
    Follow(Single(Requested, None, Held(1), true, []), Copy, Single(Calling([0]), None, Held(1), true, []), []);
    Follow(Single(NotRequested, None, Held(1), true, []), Request, Single(Requested, None, Held(1), true, []), [Copy]);
    Follow(Single(NotRequested, Some(0), Decided(false), false, []), Client(0), Single(NotRequested, None, Held(1), true, []), [Request, Copy]);
    Follow(Single(NotRequested, Some(0), Reading, false, []), Client(0), Single(NotRequested, Some(0), Decided(false), false, []), [Client(0), Request, Copy]);
    Follow(Init(1), Register(0), Single(NotRequested, Some(0), Reading, false, []), [Client(0), Client(0), Request, Copy]);
    assert [Copy] + [] == [Copy] && [Request] + [Copy] == [Request, Copy] && [Client(0)] + [Request, Copy] == [Client(0), Request, Copy];
    assert [Client(0)] + [Client(0), Request, Copy] == [Client(0), Client(0), Request, Copy];
    assert [Register(0)] + [Client(0), Client(0), Request, Copy] == [Register(0), Client(0), Client(0), Request, Copy];
  }

  lemma Changes(a: ClientPc, b: ClientPc)
    ensures [a][0 := b] == [b]
  {
  }

  // ----- the objects ------------------------------------------------------------------------

  /** The shared object, one operation at a time; `callbacks` is ordered by id. */
  class QueryCancellation {
    var cancelled: bool
    var nextId: nat
    var callbacks: map<nat, nat>

    ghost predicate Valid()
      reads this
    {
      nextId > 0 && forall id :: id in callbacks ==> 0 < id < nextId
    }

    constructor ()
      ensures Valid() && !cancelled && callbacks == map[]
    {
      cancelled, nextId, callbacks := false, 1, map[];
    }

    /** Registers a callback under an id never used before, or has it called at once. */
    method OnCancel(callback: nat) returns (handle: Registration, callNow: bool)
      requires Valid()
      modifies this
      ensures Valid() && callNow == old(cancelled) == cancelled && fresh(handle) && handle.owner == this
      ensures callNow ==> callbacks == old(callbacks) && handle.id !in callbacks
      ensures !callNow ==> handle.id !in old(callbacks) && callbacks == old(callbacks)[handle.id := callback]
      ensures !callNow ==> handle.id == old(nextId) && nextId == old(nextId) + 1
      ensures callNow ==> nextId == old(nextId)
    {
      callNow := cancelled;
      var id := 0;
      if !callNow {
        id := nextId;
        nextId := nextId + 1;
        callbacks := callbacks[id := callback];
      }
      handle := new Registration(this, id);
    }

    /** The first request calls every registered callback, in the order of the ids;
        later requests call nothing. */
    method RequestCancel() returns (calls: seq<nat>)
      requires Valid()
      modifies this`cancelled
      ensures Valid() && cancelled
      ensures calls == if old(cancelled) then [] else InOrder(callbacks, nextId)
    {
      calls := [];
      if cancelled { return; }
      cancelled := true;
      for id := 0 to nextId
        invariant cancelled && calls == InOrder(callbacks, id)
      {
        if id in callbacks { calls := calls + [callbacks[id]]; }
      }
    }

    method Remove(id: nat)
      requires Valid()
      modifies this`callbacks
      ensures Valid() && callbacks == old(callbacks) - {id}
    {
      callbacks := callbacks - {id};
    }
  }

  /** The move-only handle of a registration. */
  class Registration {
    var owner: QueryCancellation?
    var id: nat

    constructor (owner: QueryCancellation?, id: nat)
      ensures this.owner == owner && this.id == id
    {
      this.owner, this.id := owner, id;
    }

    /** The moved-from handle refers to nothing any more. */
    constructor MoveFrom(other: Registration)
      modifies other
      ensures owner == old(other.owner) && id == old(other.id) && other.owner == null
    {
      owner, id := other.owner, other.id;
      new;
      other.owner := null;
    }

    /** Unregisters once; a handle that refers to nothing changes nothing. */
    method Reset()
      requires owner != null ==> owner.Valid()
      modifies this, owner
      ensures owner == null && id == old(id)
      ensures old(owner) != null ==> old(owner).Valid() && old(owner).callbacks == old(owner.callbacks) - {id}
      ensures old(owner) != null ==> old(owner).cancelled == old(owner.cancelled) && old(owner).nextId == old(owner.nextId)
    {
      if owner != null { owner.Remove(id); }
      owner := null;
    }

    /** Unregisters its own callback, then takes the other handle's over; assigning a
        handle to itself does nothing. */
    method MoveAssign(other: Registration)
      requires owner != null ==> owner.Valid()
      modifies this, other, owner
      ensures this == other ==> owner == old(owner) && id == old(id) && (owner != null ==> owner.callbacks == old(owner.callbacks))
      ensures this != other ==> owner == old(other.owner) && id == old(other.id) && other.owner == null
      ensures this != other && old(owner) != null ==> old(owner).callbacks == old(owner.callbacks) - {old(id)}
      ensures old(owner) != null ==> old(owner).cancelled == old(owner.cancelled) && old(owner).nextId == old(owner.nextId)
    {
      if this != other {
        Reset();
        owner, id := other.owner, other.id;
        other.owner := null;
      }
    }
  }
}
