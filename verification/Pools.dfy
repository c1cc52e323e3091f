/** Connection pools and their move-only handles (src/pool/MLDPGrpcQueryPool.cpp,
    src/pool/MLDPGrpcIngestionPool.cpp, src/pool/MLDPGrpcAnnotationPool.cpp,
    include/pool/IPoolHandle.h). Every operation of a pool runs under its mutex;
    creating a channel yields an object that never existed before. */
module Pools {
  import opened Wrappers
  import opened Sequences

  /** A pooled object, by the order in which it was created. */
  type Channel = nat

  datatype Item = Item(channel: Channel, inUse: bool)

  /** `created` counts the channels that were ever created. */
  datatype PoolState = PoolState(items: seq<Item>, size: nat, max: nat, created: nat)

  function FirstFree(items: seq<Item>): (k: nat)
    ensures k <= |items| && (k < |items| ==> !items[k].inUse) && forall j :: 0 <= j < k ==> items[j].inUse
  {
    var wanted := (i: Item) => !i.inUse;
    NoneBefore(items, wanted);
    FirstIndex(items, wanted)
  }

  function PositionOf(items: seq<Item>, channel: Channel): (k: nat)
    ensures k <= |items| && (k < |items| ==> items[k].channel == channel) && forall j :: 0 <= j < k ==> items[j].channel != channel
  {
    var wanted := (i: Item) => i.channel == channel;
    NoneBefore(items, wanted);
    FirstIndex(items, wanted)
  }

  /** An acquisition; None means that the caller has to wait. */
  function Acquired(p: PoolState): Option<(PoolState, Channel)> {
    var k := FirstFree(p.items);
    if k < |p.items| then Some((p.(items := p.items[k := p.items[k].(inUse := true)]), p.items[k].channel))
    else if p.size < p.max then
      Some((p.(items := p.items + [Item(p.created, true)], size := p.size + 1, created := p.created + 1), p.created))
    else None
  }

  function Released(p: PoolState, channel: Channel): PoolState {
    var k := PositionOf(p.items, channel);
    if k < |p.items| then p.(items := p.items[k := p.items[k].(inUse := false)]) else p
  }

  /** A new pool: filled with its minimum (query, ingestion) or empty (annotation). */
  function Opened(min: nat, max: nat): PoolState {
    PoolState(seq(min, k requires 0 <= k < min => Item(k, false)), min, max, min)
  }

  predicate Taken(item: Item) { item.inUse }

  function CountInUse(items: seq<Item>): nat { CountWhere(items, Taken) }

  class Pool {
    const max: nat
    var items: seq<Item>
    var currentSize: nat
    var created: nat

    function State(): PoolState
      reads this
    {
      PoolState(items, currentSize, max, created)
    }

    constructor (min: nat, max: nat)
      ensures State() == Opened(min, max)
    {
      this.max := max;
      items := seq(min, k requires 0 <= k < min => Item(k, false));
      currentSize, created := min, min;
    }

    /** Refuses a minimum of zero or above the maximum; a lazy pool starts empty. */
    static method Create(min: nat, max: nat, isLazy: bool) returns (pool: Pool?)
      ensures pool == null <==> min == 0 || min > max
      ensures pool != null ==> fresh(pool) && pool.State() == Opened(if isLazy then 0 else min, max)
    {
      if min == 0 || min > max { return null; }
      pool := new Pool(if isLazy then 0 else min, max);
    }

    /** One pass of the acquisition loop. */
    method TryAcquire() returns (channel: Option<Channel>)
      modifies this
      ensures Acquired(old(State())).Some? ==> State() == Acquired(old(State())).value.0 && channel == Some(Acquired(old(State())).value.1)
      ensures Acquired(old(State())).None? ==> State() == old(State()) && channel == None
    {
      for k := 0 to |items|
        invariant items == old(items) && State() == old(State()) && forall j :: 0 <= j < k ==> items[j].inUse
      {
        if !items[k].inUse {
          items := items[k := items[k].(inUse := true)];
          return Some(items[k].channel);
        }
      }
      if currentSize < max {
        var made := created;
        created := created + 1;
        items := items + [Item(made, true)];
        currentSize := currentSize + 1;
        return Some(made);
      }
      return None;
    }

    method Release(channel: Channel)
      modifies this
      ensures State() == Released(old(State()), channel)
    {
      for k := 0 to |items|
        invariant State() == old(State()) && forall j :: 0 <= j < k ==> items[j].channel != channel
      {
        if items[k].channel == channel {
          items := items[k := items[k].(inUse := false)];
          return;
        }
      }
    }

    method Available() returns (n: nat)
      ensures n == |items| - CountInUse(items)
    {
      n := 0;
      for k := 0 to |items|
        invariant n == k - CountInUse(items[..k])
      {
        assert items[..k + 1][..k] == items[..k];
        if !items[k].inUse { n := n + 1; }
      }
      assert items[..|items|] == items;
    }
  }

  /** A handle: it owns its channel when both its fields are set. */
  class PooledHandle {
    var pool: Pool?
    var channel: Option<Channel>

    predicate Owns()
      reads this
    {
      pool != null && channel.Some?
    }

    constructor (pool: Pool?, channel: Option<Channel>)
      ensures this.pool == pool && this.channel == channel
    {
      this.pool, this.channel := pool, channel;
    }

    /** Takes everything from another handle, which is left empty. */
    constructor MoveFrom(other: PooledHandle)
      modifies other
      ensures pool == old(other.pool) && channel == old(other.channel)
      ensures other.pool == null && other.channel == None
    {
      pool, channel := other.pool, other.channel;
      new;
      other.pool, other.channel := null, None;
    }

    /** Gives an owned channel back; a handle that owns nothing stays as it is. */
    method Reset()
      modifies this, pool
      ensures old(Owns()) ==> pool == null && channel == None && old(pool).State() == Released(old(pool.State()), old(channel.value))
      ensures !old(Owns()) ==> pool == old(pool) && channel == old(channel) && (pool != null ==> pool.State() == old(pool.State()))
    {
      if pool != null && channel.Some? {
        pool.Release(channel.value);
        pool, channel := null, None;
      }
    }

    /** Assigning a handle to itself does nothing; otherwise the old channel is given
        back before the other handle's is taken. */
    method MoveAssign(other: PooledHandle)
      modifies this, other, pool
      ensures this == other ==> pool == old(pool) && channel == old(channel) && (pool != null ==> pool.State() == old(pool.State()))
      ensures this != other ==> pool == old(other.pool) && channel == old(other.channel) && other.pool == null && other.channel == None
      ensures this != other && old(Owns()) ==> old(pool).State() == Released(old(pool.State()), old(channel.value))
      ensures this != other && !old(Owns()) && old(pool) != null ==> old(pool).State() == old(pool.State())
    {
      if this != other {
        Reset();
        pool, channel := other.pool, other.channel;
        other.pool, other.channel := null, None;
      }
    }
  }

  // ----- runs of one pool and its handles ----------------------------------------------------

  /** What a handle holds; `ticket` numbers the acquisitions. */
  datatype Grip = Empty | Owning(channel: Channel, ticket: nat)

  /** `initial` and `peak` are the sizes at the start and the largest number of
      handles that owned a channel at one time; `returned` lists released tickets. */
  datatype World = World(
    pool: PoolState, handles: map<nat, Grip>, acquisitions: nat, returned: seq<nat>, initial: nat, peak: nat)

  datatype Op = Acquire(h: nat) | MoveConstruct(h: nat, from: nat) | MoveAssign(h: nat, from: nat) | Reset(h: nat) | Destroy(h: nat)

  function Begin(min: nat, max: nat): World { World(Opened(min, max), map[], 0, [], min, 0) }

  predicate Possible(w: World, op: Op) {
    match op
    case Acquire(h) => h !in w.handles && Acquired(w.pool).Some?
    case MoveConstruct(h, from) => h !in w.handles && from in w.handles
    case MoveAssign(h, from) => h in w.handles && from in w.handles
    case Reset(h) => h in w.handles
    case Destroy(h) => h in w.handles
  }

  function OwningHandles(handles: map<nat, Grip>): set<nat> { set h | h in handles && handles[h].Owning? }

  /** Letting go of what a handle owns. */
  function Drop(w: World, h: nat): World
    requires h in w.handles
  {
    match w.handles[h]
    case Empty => w
    case Owning(channel, ticket) =>
      w.(pool := Released(w.pool, channel), handles := w.handles[h := Empty], returned := w.returned + [ticket])
  }

  function Take(w: World, h: nat): World
    requires Acquired(w.pool).Some?
  {
    var handles := w.handles[h := Owning(Acquired(w.pool).value.1, w.acquisitions)];
    w.(pool := Acquired(w.pool).value.0, handles := handles, acquisitions := w.acquisitions + 1,
       peak := if |OwningHandles(handles)| > w.peak then |OwningHandles(handles)| else w.peak)
  }

  /** One handle takes over what another one holds. */
  function Passed(handles: map<nat, Grip>, h: nat, from: nat): map<nat, Grip>
    requires from in handles
  {
    handles[h := handles[from]][from := Empty]
  }

  function Moved(w: World, h: nat, from: nat): World
    requires from in w.handles
  {
    w.(handles := Passed(w.handles, h, from))
  }

  function Do(w: World, op: Op): World
    requires Possible(w, op)
  {
    match op
    case Acquire(h) => Take(w, h)
    case MoveConstruct(h, from) => Moved(w, h, from)
    case MoveAssign(h, from) => if h == from then w else Moved(Drop(w, h), h, from)
    case Reset(h) => Drop(w, h)
    case Destroy(h) => var d := Drop(w, h); d.(handles := d.handles - {h})
  }

  function Exec(min: nat, max: nat, ops: seq<Op>): Option<World> {
    if ops == [] then Some(Begin(min, max))
    else
      var before := Exec(min, max, ops[..|ops|-1]);
      if before.Some? && Possible(before.value, ops[|ops|-1]) then Some(Do(before.value, ops[|ops|-1])) else None
  }

  // ----- the invariant ------------------------------------------------------------------------

  ghost predicate ItemsInv(p: PoolState) {
    && |p.items| == p.size <= p.max
    && (forall i, j :: 0 <= i < j < |p.items| ==> p.items[i].channel != p.items[j].channel)
    && forall i :: 0 <= i < |p.items| ==> p.items[i].channel < p.created
  }

  ghost predicate InUse(items: seq<Item>, channel: Channel) {
    exists i :: 0 <= i < |items| && items[i].channel == channel && items[i].inUse
  }

  predicate Holds(handles: map<nat, Grip>, h: nat) { h in handles && handles[h].Owning? }

  /** No channel and no ticket is held twice, and what is held is in use. */
  ghost predicate GripInv(items: seq<Item>, handles: map<nat, Grip>) {
    && (forall h, g :: Holds(handles, h) && Holds(handles, g) && h != g ==>
          handles[h].channel != handles[g].channel && handles[h].ticket != handles[g].ticket)
    && forall h :: Holds(handles, h) ==> InUse(items, handles[h].channel)
  }

  /** Every ticket is either held or was returned, once. */
  ghost predicate TicketInv(handles: map<nat, Grip>, acquisitions: nat, returned: seq<nat>) {
    && (forall i, j :: 0 <= i < j < |returned| ==> returned[i] != returned[j])
    && (forall h :: Holds(handles, h) ==> handles[h].ticket < acquisitions && handles[h].ticket !in returned)
    && (forall t :: t in returned ==> t < acquisitions)
    && |returned| + |OwningHandles(handles)| == acquisitions
  }

  ghost predicate SizeInv(p: PoolState, handles: map<nat, Grip>, initial: nat, peak: nat) {
    && CountInUse(p.items) == |OwningHandles(handles)| <= peak
    && p.size == if initial > peak then initial else peak
  }

  ghost predicate Inv(w: World) {
    && ItemsInv(w.pool) && GripInv(w.pool.items, w.handles)
    && TicketInv(w.handles, w.acquisitions, w.returned) && SizeInv(w.pool, w.handles, w.initial, w.peak)
  }

  // ----- one operation keeps it ----------------------------------------------------------------

  /** Marking one free item leaves every other channel as it was. */
  lemma MarkedItem(items: seq<Item>, k: nat)
    requires k < |items| && !items[k].inUse && forall i, j :: 0 <= i < j < |items| ==> items[i].channel != items[j].channel
    ensures var after := items[k := items[k].(inUse := true)];
            && !InUse(items, items[k].channel) && InUse(after, items[k].channel)
            && forall c :: c != items[k].channel ==> (InUse(after, c) <==> InUse(items, c))
  {
    var after := items[k := items[k].(inUse := true)];
    assert after[k].channel == items[k].channel && after[k].inUse;
    forall c | c != items[k].channel ensures InUse(after, c) <==> InUse(items, c) {
      if i :| 0 <= i < |items| && items[i].channel == c && items[i].inUse { assert after[i] == items[i]; }
      if i :| 0 <= i < |items| && after[i].channel == c && after[i].inUse { assert after[i] == items[i]; }
    }
  }

  lemma AddedItem(items: seq<Item>, channel: Channel)
    requires forall i :: 0 <= i < |items| ==> items[i].channel != channel
    ensures var after := items + [Item(channel, true)];
            && !InUse(items, channel) && InUse(after, channel)
            && forall c :: c != channel ==> (InUse(after, c) <==> InUse(items, c))
  {
    var after := items + [Item(channel, true)];
    assert after[|items|].channel == channel && after[|items|].inUse;
    forall c | c != channel ensures InUse(after, c) <==> InUse(items, c) {
      if i :| 0 <= i < |items| && items[i].channel == c && items[i].inUse { assert after[i] == items[i]; }
    }
  }

  lemma CountMarked(items: seq<Item>, k: nat)
    requires k < |items| && !items[k].inUse
    ensures CountInUse(items[k := items[k].(inUse := true)]) == CountInUse(items) + 1 && CountInUse(items) < |items|
  {
    CountAfterUpdate(items, Taken, k, items[k].(inUse := true));
    CountBounds(items, Taken);
    assert !Taken(items[k]);
  }

  lemma CountAdded(items: seq<Item>, channel: Channel)
    requires forall j :: 0 <= j < |items| ==> items[j].inUse
    ensures CountInUse(items + [Item(channel, true)]) == CountInUse(items) + 1 && CountInUse(items) == |items|
  {
    CountMore(items, Taken, Item(channel, true));
    CountBounds(items, Taken);
  }

  lemma CountFreed(items: seq<Item>, k: nat)
    requires k < |items| && items[k].inUse
    ensures CountInUse(items[k := items[k].(inUse := false)]) == CountInUse(items) - 1
  {
    CountAfterUpdate(items, Taken, k, items[k].(inUse := false));
  }

  /** Freeing an item leaves every other channel as it was. */
  lemma FreedItem(items: seq<Item>, k: nat)
    requires k < |items| && forall i, j :: 0 <= i < j < |items| ==> items[i].channel != items[j].channel
    ensures var after := items[k := items[k].(inUse := false)];
            && !InUse(after, items[k].channel)
            && forall c :: c != items[k].channel ==> (InUse(after, c) <==> InUse(items, c))
  {
    var after := items[k := items[k].(inUse := false)];
    forall c | c != items[k].channel ensures InUse(after, c) <==> InUse(items, c) {
      if i :| 0 <= i < |items| && items[i].channel == c && items[i].inUse { assert after[i] == items[i]; }
      if i :| 0 <= i < |items| && after[i].channel == c && after[i].inUse { assert after[i] == items[i]; }
    }
  }

  /** The pool after an acquisition: one more channel in use, and it was not in use before. */
  lemma AcquiredPool(p: PoolState)
    requires ItemsInv(p) && Acquired(p).Some?
    ensures var (q, channel) := Acquired(p).value;
            && ItemsInv(q) && !InUse(p.items, channel) && InUse(q.items, channel)
            && (forall c :: c != channel ==> (InUse(q.items, c) <==> InUse(p.items, c)))
            && CountInUse(q.items) == CountInUse(p.items) + 1
            && q.size == (if CountInUse(p.items) == p.size then p.size + 1 else p.size)
  {
    var k := FirstFree(p.items);
    if k < |p.items| {
      MarkedItem(p.items, k);
      CountMarked(p.items, k);
    } else {
      AddedItem(p.items, p.created);
      CountAdded(p.items, p.created);
    }
  }

  /** The pool after a release of a channel in use: it alone is free again. */
  lemma ReleasedPool(p: PoolState, channel: Channel)
    requires ItemsInv(p) && InUse(p.items, channel)
    ensures var q := Released(p, channel);
            && ItemsInv(q) && q.size == p.size && !InUse(q.items, channel)
            && (forall c :: c != channel ==> (InUse(q.items, c) <==> InUse(p.items, c)))
            && CountInUse(q.items) == CountInUse(p.items) - 1
  {
    var k := PositionOf(p.items, channel);
    var i :| 0 <= i < |p.items| && p.items[i].channel == channel && p.items[i].inUse;
    assert k == i;
    CountFreed(p.items, k);
    FreedItem(p.items, k);
  }

  lemma TakeGrip(items: seq<Item>, after: seq<Item>, handles: map<nat, Grip>, h: nat, channel: Channel, ticket: nat)
    requires GripInv(items, handles) && h !in handles && !InUse(items, channel) && InUse(after, channel)
    requires forall c :: c != channel ==> (InUse(after, c) <==> InUse(items, c))
    requires forall g :: Holds(handles, g) ==> handles[g].ticket < ticket
    ensures GripInv(after, handles[h := Owning(channel, ticket)])
  {
  }

  lemma TakeTicket(handles: map<nat, Grip>, acquisitions: nat, returned: seq<nat>, h: nat, channel: Channel)
    requires TicketInv(handles, acquisitions, returned) && h !in handles
    ensures TicketInv(handles[h := Owning(channel, acquisitions)], acquisitions + 1, returned)
    ensures |OwningHandles(handles[h := Owning(channel, acquisitions)])| == |OwningHandles(handles)| + 1
  {
    assert OwningHandles(handles[h := Owning(channel, acquisitions)]) == OwningHandles(handles) + {h};
  }

  lemma TakeKeeps(w: World, h: nat)
    requires Inv(w) && h !in w.handles && Acquired(w.pool).Some?
    ensures Inv(Take(w, h))
  {
    var (p, channel) := Acquired(w.pool).value;
    AcquiredPool(w.pool);
    TakeGrip(w.pool.items, p.items, w.handles, h, channel, w.acquisitions);
    TakeTicket(w.handles, w.acquisitions, w.returned, h, channel);
  }

  lemma DropGrip(items: seq<Item>, after: seq<Item>, handles: map<nat, Grip>, h: nat)
    requires GripInv(items, handles) && Holds(handles, h)
    requires forall c :: c != handles[h].channel ==> (InUse(after, c) <==> InUse(items, c))
    ensures GripInv(after, handles[h := Empty])
  {
  }

  lemma DropTicket(handles: map<nat, Grip>, acquisitions: nat, returned: seq<nat>, h: nat)
    requires TicketInv(handles, acquisitions, returned) && Holds(handles, h)
    requires forall g :: Holds(handles, g) && g != h ==> handles[g].ticket != handles[h].ticket
    ensures TicketInv(handles[h := Empty], acquisitions, returned + [handles[h].ticket])
    ensures |OwningHandles(handles[h := Empty])| == |OwningHandles(handles)| - 1
  {
    assert OwningHandles(handles) == OwningHandles(handles[h := Empty]) + {h};
  }

  lemma DropKeeps(w: World, h: nat)
    requires Inv(w) && h in w.handles
    ensures Inv(Drop(w, h)) && h in Drop(w, h).handles && Drop(w, h).handles[h] == Empty
  {
    if w.handles[h].Owning? {
      assert Holds(w.handles, h);
      ReleasedPool(w.pool, w.handles[h].channel);
      DropGrip(w.pool.items, Released(w.pool, w.handles[h].channel).items, w.handles, h);
      DropTicket(w.handles, w.acquisitions, w.returned, h);
    }
  }

  /** Which handle held before what a handle holds after a move. */
  function Source(h: nat, from: nat, g: nat): nat { if g == h then from else g }

  lemma PassedHolds(handles: map<nat, Grip>, h: nat, from: nat, g: nat)
    requires h != from && from in handles && !Holds(handles, h) && Holds(Passed(handles, h, from), g)
    ensures Holds(handles, Source(h, from, g)) && Passed(handles, h, from)[g] == handles[Source(h, from, g)] && g != from
  {
  }

  lemma PassedGrip(items: seq<Item>, handles: map<nat, Grip>, h: nat, from: nat)
    requires h != from && from in handles && !Holds(handles, h) && GripInv(items, handles)
    ensures GripInv(items, Passed(handles, h, from))
  {
    var after := Passed(handles, h, from);
    forall g | Holds(after, g) ensures InUse(items, after[g].channel) { PassedHolds(handles, h, from, g); }
    forall g, k | Holds(after, g) && Holds(after, k) && g != k ensures after[g].channel != after[k].channel && after[g].ticket != after[k].ticket {
      PassedHolds(handles, h, from, g);
      PassedHolds(handles, h, from, k);
    }
  }

  lemma PassedCount(handles: map<nat, Grip>, h: nat, from: nat)
    requires h != from && from in handles && !Holds(handles, h)
    ensures |OwningHandles(Passed(handles, h, from))| == |OwningHandles(handles)|
  {
    var rest := OwningHandles(handles) - {from};
    if Holds(handles, from) {
      assert OwningHandles(handles) == rest + {from} && OwningHandles(Passed(handles, h, from)) == rest + {h};
    } else {
      assert OwningHandles(Passed(handles, h, from)) == OwningHandles(handles);
    }
  }

  lemma PassedTickets(handles: map<nat, Grip>, acquisitions: nat, returned: seq<nat>, h: nat, from: nat)
    requires h != from && from in handles && !Holds(handles, h) && TicketInv(handles, acquisitions, returned)
    ensures TicketInv(Passed(handles, h, from), acquisitions, returned)
  {
    var after := Passed(handles, h, from);
    PassedCount(handles, h, from);
    forall g | Holds(after, g) ensures after[g].ticket < acquisitions && after[g].ticket !in returned {
      PassedHolds(handles, h, from, g);
    }
  }

  lemma MovedKeeps(w: World, h: nat, from: nat)
    requires Inv(w) && h != from && from in w.handles && !Holds(w.handles, h)
    ensures Inv(Moved(w, h, from))
  {
    PassedGrip(w.pool.items, w.handles, h, from);
    PassedTickets(w.handles, w.acquisitions, w.returned, h, from);
    PassedCount(w.handles, h, from);
  }

  lemma ForgetKeeps(w: World, h: nat)
    requires Inv(w) && !Holds(w.handles, h)
    ensures Inv(w.(handles := w.handles - {h}))
  {
    assert OwningHandles(w.handles - {h}) == OwningHandles(w.handles);
    assert forall g :: Holds(w.handles - {h}, g) ==> Holds(w.handles, g) && (w.handles - {h})[g] == w.handles[g];
  }

  lemma DoKeeps(w: World, op: Op)
    requires Inv(w) && Possible(w, op)
    ensures Inv(Do(w, op))
  {
    match op
    case Acquire(h) => TakeKeeps(w, h);
    case MoveConstruct(h, from) => MovedKeeps(w, h, from);
    case MoveAssign(h, from) =>
      if h != from {
        DropKeeps(w, h);
        MovedKeeps(Drop(w, h), h, from);
      }
    case Reset(h) => DropKeeps(w, h);
    case Destroy(h) =>
      DropKeeps(w, h);
      ForgetKeeps(Drop(w, h), h);
  }

  lemma BeginHolds(min: nat, max: nat)
    requires min <= max
    ensures Inv(Begin(min, max))
  {
    CountBounds(Opened(min, max).items, Taken);
    assert OwningHandles(map[]) == {};
  }

  lemma {:induction false} InvAlways(min: nat, max: nat, ops: seq<Op>)
    requires min <= max && Exec(min, max, ops).Some?
    ensures Inv(Exec(min, max, ops).value) && Exec(min, max, ops).value.initial == min && Exec(min, max, ops).value.pool.max == max
  {
    if ops == [] {
      BeginHolds(min, max);
    } else {
      InvAlways(min, max, ops[..|ops|-1]);
      DoKeeps(Exec(min, max, ops[..|ops|-1]).value, ops[|ops|-1]);
    }
  }

  // ----- the guarantees ------------------------------------------------------------------------

  /** In every run no channel is owned by two handles, the channels in use are counted
      by the owning handles, and the size is the larger of the initial size and the
      peak, never above the maximum. */
  lemma PoolIsConserved(min: nat, max: nat, ops: seq<Op>)
    requires min <= max && Exec(min, max, ops).Some?
    ensures var w := Exec(min, max, ops).value;
            && (forall h, g :: Holds(w.handles, h) && Holds(w.handles, g) && h != g ==> w.handles[h].channel != w.handles[g].channel)
            && CountInUse(w.pool.items) == |OwningHandles(w.handles)|
            && w.pool.size == (if min > w.peak then min else w.peak) <= max
  {
    InvAlways(min, max, ops);
  }

  /** Every acquisition is released at most once, exactly when no handle holds it any
      more; with no owning handle left, all have been released. */
  lemma ReleasedExactlyOnce(min: nat, max: nat, ops: seq<Op>)
    requires min <= max && Exec(min, max, ops).Some?
    ensures var w := Exec(min, max, ops).value;
            && (forall i, j :: 0 <= i < j < |w.returned| ==> w.returned[i] != w.returned[j])
            && (forall h :: Holds(w.handles, h) ==> w.handles[h].ticket !in w.returned)
            && |w.returned| + |OwningHandles(w.handles)| == w.acquisitions
            && (OwningHandles(w.handles) == {} ==> CountInUse(w.pool.items) == 0 && |w.returned| == w.acquisitions)
  {
    InvAlways(min, max, ops);
  }

  /** In every state of every run, an acquisition succeeds exactly when fewer handles
      own a channel than the pool may hold, whatever its size at the moment. */
  lemma AcquireIff(min: nat, max: nat, ops: seq<Op>, h: nat)
    requires min <= max && Exec(min, max, ops).Some? && h !in Exec(min, max, ops).value.handles
    ensures var w := Exec(min, max, ops).value; Possible(w, Acquire(h)) <==> |OwningHandles(w.handles)| < max
  {
    InvAlways(min, max, ops);
    var items := Exec(min, max, ops).value.pool.items;
    CountBounds(items, Taken);
    var k := FirstFree(items);
    assert k < |items| ==> !Taken(items[k]);
    assert k == |items| ==> forall j :: 0 <= j < |items| ==> Taken(items[j]);
  }

  lemma TakenFromNobody(w: World, h: nat)
    requires Inv(w) && Possible(w, Acquire(h))
    ensures Holds(Take(w, h).handles, h) && forall g :: Holds(w.handles, g) ==> w.handles[g].channel != Take(w, h).handles[h].channel
  {
    AcquiredPool(w.pool);
  }

  /** Whom an operation leaves alone. */
  predicate Bystander(op: Op, g: nat) { g != op.h && ((op.MoveConstruct? || op.MoveAssign?) ==> g != op.from) }

  /** What an operation does to the handles it is called with. */
  ghost predicate HandlesChange(op: Op, before: map<nat, Grip>, after: map<nat, Grip>) {
    match op
    case Acquire(h) => Holds(after, h) && forall g :: Holds(before, g) ==> before[g].channel != after[h].channel
    case MoveConstruct(h, from) => from in before && h in after && from in after && after[h] == before[from] && after[from] == Empty
    case MoveAssign(h, from) => from in before && h in after && from in after && after[h] == before[from] && (h != from ==> after[from] == Empty)
    case Reset(h) => h in after && after[h] == Empty
    case Destroy(h) => h !in after
  }

  /** An acquisition gives its handle a channel that nobody owns; a move hands over what
      the other handle held and leaves that handle empty; nobody else notices. */
  lemma WhoOwnsAfter(min: nat, max: nat, ops: seq<Op>, op: Op)
    requires min <= max && Exec(min, max, ops).Some? && Possible(Exec(min, max, ops).value, op)
    ensures var before, after := Exec(min, max, ops).value.handles, Do(Exec(min, max, ops).value, op).handles;
            && HandlesChange(op, before, after)
            && forall g :: Bystander(op, g) ==> (g in after <==> g in before) && (g in before ==> after[g] == before[g])
  {
    var w := Exec(min, max, ops).value;
    match op
    case Acquire(h) =>
      InvAlways(min, max, ops);
      TakenFromNobody(w, h);
    case _ =>
  }
}
