/**
 The process slots of apps/goose-extension/src/cli.ts: at most four children, at most
 sixteen waiters, direct hand-over of a freed slot to the oldest waiter, deadlines,
 cancellation and shutdown. `Slots` says who waits and who owns a slot: it has neither a
 counter nor a list. `WeldallCli` keeps the counter and the insertion-ordered collections
 of the source and refines `Slots` turn by turn. `World` closes the system over every
 order of calls, timers, signals, continuations, exits and close.
 */
module CliSlots {

  const MAX_RUNNING: nat := 4
  const MAX_WAITING: nat := 16
  const MAX_OUTPUT: int := 12 * 1024 * 1024

  /** Calls are numbered in the order in which they arrive. */
  type Call = int

  datatype Outcome = InvalidRequest | Cancelled | Busy | Exited

  datatype Reply = Started | Queued | Failed(reason: Outcome)

  /** Due: the slot is owned but the continuation that spawns has not run yet. Live: a child runs. */
  datatype Phase = Due | Live

  datatype Slots = Slots(waiting: set<Call>, owners: map<Call, Phase>, closed: bool) {
    ghost predicate Sound() {
      && |owners| <= MAX_RUNNING
      && |waiting| <= MAX_WAITING
      && (waiting != {} ==> |owners| == MAX_RUNNING)
      && waiting !! owners.Keys
    }
  }

  lemma Member(s: set<Call>) returns (c: Call)
    requires s != {}
    ensures c in s
  {
    assert (forall x :: x !in s) ==> s == {};
    c :| c in s;
  }

  lemma {:induction false} OldestExists(s: set<Call>)
    requires s != {}
    ensures exists m :: m in s && forall x :: x in s ==> m <= x
    decreases s
  {
    var y := Member(s);
    if s != {y} {
      OldestExists(s - {y});
      var m :| m in s - {y} && forall x :: x in s - {y} ==> m <= x;
      var n := if y < m then y else m;
      forall x | x in s ensures n <= x {
        assert x == y || x in s - {y};
      }
      assert n in s;
    }
  }

  ghost function Oldest(s: set<Call>): (m: Call)
    requires s != {}
    ensures m in s && forall x :: x in s ==> m <= x
  {
    OldestExists(s);
    var m :| m in s && forall x :: x in s ==> m <= x;
    m
  }

  /** The oldest waiter takes the slot that c gives up. */
  ghost function HandOver(s: Slots, c: Call): Slots {
    if s.waiting == {} then s.(owners := s.owners - {c})
    else s.(waiting := s.waiting - {Oldest(s.waiting)}, owners := (s.owners - {c})[Oldest(s.waiting) := Due])
  }

  /** What a call that owns a slot does in the turn in which it resumes. */
  ghost function Proceed(s: Slots, c: Call, now: int, deadline: int, aborted: bool): (Slots, Reply) {
    if s.closed || aborted || deadline <= now then
      (HandOver(s, c), Failed(if deadline <= now then Busy else Cancelled))
    else
      (s.(owners := s.owners[c := Live]), Started)
  }

  /** The call takes a free slot at once. */
  ghost predicate Admits(s: Slots, aborted: bool, maximumOutput: int) {
    1 <= maximumOutput <= MAX_OUTPUT && !s.closed && !aborted && |s.owners| < MAX_RUNNING
  }

  ghost function Arrive(s: Slots, c: Call, now: int, deadline: int, aborted: bool, maximumOutput: int): (Slots, Reply) {
    if maximumOutput < 1 || MAX_OUTPUT < maximumOutput then (s, Failed(InvalidRequest))
    else if s.closed || aborted then (s, Failed(Cancelled))
    else if |s.owners| < MAX_RUNNING then Proceed(s.(owners := s.owners[c := Due]), c, now, deadline, aborted)
    else if MAX_WAITING <= |s.waiting| then (s, Failed(Busy))
    else (s.(waiting := s.waiting + {c}), Queued)
  }

  lemma HandOverSound(s: Slots, c: Call)
    requires s.Sound() && c in s.owners
    ensures HandOver(s, c).Sound() && c !in HandOver(s, c).owners && c !in HandOver(s, c).waiting
    ensures |HandOver(s, c).owners| == |s.owners| - (if s.waiting == {} then 1 else 0)
  {
    var t := HandOver(s, c);
    assert (s.owners - {c}).Keys == s.owners.Keys - {c};
    if s.waiting != {} {
      assert t.owners.Keys == s.owners.Keys - {c} + {Oldest(s.waiting)};
      assert |t.owners.Keys| == |s.owners.Keys|;
    } else {
      assert |t.owners.Keys| == |s.owners.Keys| - 1;
    }
  }

  lemma ProceedSound(s: Slots, c: Call, now: int, deadline: int, aborted: bool)
    requires s.Sound() && c in s.owners
    ensures Proceed(s, c, now, deadline, aborted).0.Sound()
  {
    HandOverSound(s, c);
    assert s.owners[c := Live].Keys == s.owners.Keys;
    assert |s.owners[c := Live].Keys| == |s.owners.Keys|;
  }

  lemma StartSound(s: Slots, c: Call)
    requires s.Sound() && c in s.owners
    ensures s.(owners := s.owners[c := Live]).Sound() && |s.owners[c := Live]| == |s.owners|
    ensures Alive(s.owners[c := Live]) == Alive(s.owners) + {c}
  {
    assert s.owners[c := Live].Keys == s.owners.Keys;
    assert |s.owners[c := Live].Keys| == |s.owners.Keys|;
  }

  lemma AdmitSound(s: Slots, c: Call)
    requires s.Sound() && |s.owners| < MAX_RUNNING && c !in s.owners
    ensures s.(owners := s.owners[c := Due]).Sound() && |s.owners[c := Due]| == |s.owners| + 1
  {
    assert s.owners[c := Due].Keys == s.owners.Keys + {c};
    assert |s.owners[c := Due].Keys| == |s.owners.Keys| + 1;
  }

  // ---------------------------------------------------------------------------
  // The class of the source: a counter and insertion-ordered collections
  // ---------------------------------------------------------------------------

  ghost predicate Ascending(queue: seq<Call>) {
    forall i, j :: 0 <= i < j < |queue| ==> queue[i] < queue[j]
  }

  ghost function Elements(queue: seq<Call>): set<Call> {
    set x | x in queue
  }

  function Without(queue: seq<Call>, c: Call): seq<Call> {
    if queue == [] then []
    else if queue[0] == c then queue[1..]
    else [queue[0]] + Without(queue[1..], c)
  }

  lemma SplitHead(queue: seq<Call>)
    requires Ascending(queue) && queue != []
    ensures Ascending(queue[1..]) && Elements(queue) == {queue[0]} + Elements(queue[1..])
    ensures forall x :: x in Elements(queue[1..]) ==> queue[0] < x
  {
    assert queue == [queue[0]] + queue[1..];
  }

  lemma JoinHead(head: Call, rest: seq<Call>)
    requires Ascending(rest) && forall x :: x in Elements(rest) ==> head < x
    ensures Ascending([head] + rest) && Elements([head] + rest) == {head} + Elements(rest)
  {
    assert forall i :: 0 <= i < |rest| ==> rest[i] in Elements(rest);
  }

  lemma {:induction false} WithoutRemoves(queue: seq<Call>, c: Call)
    requires Ascending(queue)
    ensures Ascending(Without(queue, c)) && Elements(Without(queue, c)) == Elements(queue) - {c}
  {
    if queue != [] {
      SplitHead(queue);
      if queue[0] != c {
        WithoutRemoves(queue[1..], c);
        JoinHead(queue[0], Without(queue[1..], c));
      }
    }
  }

  lemma {:induction false} CountElements(queue: seq<Call>)
    requires Ascending(queue)
    ensures |Elements(queue)| == |queue|
  {
    if queue != [] {
      SplitHead(queue);
      CountElements(queue[1..]);
    }
  }

  lemma HeadIsOldest(queue: seq<Call>)
    requires Ascending(queue) && queue != []
    ensures queue[0] in Elements(queue) && Oldest(Elements(queue)) == queue[0]
  {
    assert queue[0] in Elements(queue);
    assert forall x :: x in Elements(queue) ==> queue[0] <= x;
  }

  ghost function Alive(owners: map<Call, Phase>): set<Call> {
    set c | c in owners && owners[c] == Live
  }

  class WeldallCli {
    var running: nat
    var waiting: seq<Call>
    var operations: set<Call>
    var pending: set<Call>
    var closed: bool
    /** Who owns the counted slots; in the source this is only implied by the suspended calls. */
    ghost var owners: map<Call, Phase>

    ghost function Model(): Slots
      reads this
    {
      Slots(Elements(waiting), owners, closed)
    }

    /** The counter agrees with the owners. */
    ghost predicate Counted()
      reads this
    {
      Model().Sound() && Ascending(waiting) && running == |owners|
    }

    ghost predicate Valid()
      reads this
    {
      Counted() && operations == pending && pending == Alive(owners) && (closed ==> waiting == [])
    }

    constructor ()
      ensures Valid() && Model() == Slots({}, map[], false)
    {
      running, waiting, operations, pending, closed := 0, [], {}, {}, false;
      owners := map[];
    }

    method RunOnce(c: Call, now: int, deadline: int, aborted: bool, maximumOutput: int) returns (reply: Reply)
      requires Valid() && c !in owners && forall x :: x in waiting ==> x < c
      modifies this
      ensures Valid() && (Model(), reply) == Arrive(old(Model()), c, now, deadline, aborted, maximumOutput)
      ensures reply == if !(1 <= maximumOutput <= 12 * 1024 * 1024) then Failed(InvalidRequest)
                       else if old(closed) || aborted then Failed(Cancelled)
                       else if old(running) < 4 then (if now < deadline then Started else Failed(Busy))
                       else if |old(Model()).waiting| < 16 then Queued else Failed(Busy)
    {
      if maximumOutput < 1 || MAX_OUTPUT < maximumOutput { return Failed(InvalidRequest); }
      if closed || aborted { return Failed(Cancelled); }
      if running < MAX_RUNNING {
        AdmitSound(Model(), c);
        running := running + 1;
        owners := owners[c := Due];
      } else {
        reply := WaitForSlot(c);
        return;
      }
      reply := Resume(c, now, deadline, aborted);
    }

    /** The rest of the call once it owns a slot. */
    method Resume(c: Call, now: int, deadline: int, aborted: bool) returns (reply: Reply)
      requires Valid() && c in owners && owners[c] == Due
      modifies this
      ensures Valid() && (Model(), reply) == Proceed(old(Model()), c, now, deadline, aborted)
      ensures reply == if deadline <= now then Failed(Busy)
                       else if old(closed) || aborted then Failed(Cancelled) else Started
    {
      var timeout := deadline - now;
      if closed || aborted || timeout <= 0 {
        Release(c);
        AliveAfterHandOver(old(Model()), c);
        return Failed(if timeout <= 0 then Busy else Cancelled);
      }
      StartSound(Model(), c);
      operations := operations + {c};
      pending := pending + {c};
      owners := owners[c := Live];
      reply := Started;
    }

    method WaitForSlot(c: Call) returns (reply: Reply)
      requires Valid() && running == MAX_RUNNING && !closed
      requires c !in owners && forall x :: x in waiting ==> x < c
      modifies this`waiting
      ensures Valid()
      ensures reply == if MAX_WAITING <= |old(Model()).waiting| then Failed(Busy) else Queued
      ensures Model() == if reply == Queued then old(Model()).(waiting := old(Model()).waiting + {c}) else old(Model())
    {
      CountElements(waiting);
      if MAX_WAITING <= |waiting| { return Failed(Busy); }
      assert Elements(waiting + [c]) == Elements(waiting) + {c};
      forall i, j | 0 <= i < j < |waiting + [c]| ensures (waiting + [c])[i] < (waiting + [c])[j] {
        assert waiting[i] in waiting;
      }
      CountElements(waiting + [c]);
      waiting := waiting + [c];
      reply := Queued;
    }

    /** A waiter stops waiting: its timer fired, its signal aborted, or close() rejected it. */
    method Done(c: Call)
      requires Counted() && c in waiting
      modifies this`waiting
      ensures Counted() && (old(Valid()) ==> Valid())
      ensures Model() == old(Model()).(waiting := old(Model()).waiting - {c})
      ensures |waiting| == |old(waiting)| - 1
    {
      WithoutRemoves(waiting, c);
      CountElements(waiting);
      CountElements(Without(waiting, c));
      waiting := Without(waiting, c);
    }

    /** Gives up the slot of c, directly to the oldest waiter if there is one. */
    method Release(ghost c: Call)
      requires Counted() && c in owners
      modifies this`running, this`waiting, this`owners
      ensures Counted() && Model() == HandOver(old(Model()), c)
      ensures old(waiting) == [] ==> waiting == []
    {
      HandOverSound(Model(), c);
      if |waiting| > 0 {
        var next := waiting[0];
        HeadIsOldest(waiting);
        WithoutRemoves(waiting, next);
        waiting := Without(waiting, next);
        owners := (owners - {c})[next := Due];
      } else {
        running := running - 1;
        owners := owners - {c};
      }
    }

    /** The child of c has closed. */
    method Exit(c: Call)
      requires Valid() && c in pending
      modifies this
      ensures Valid() && Model() == HandOver(old(Model()), c)
    {
      operations := operations - {c};
      pending := pending - {c};
      Release(c);
      AliveAfterHandOver(old(Model()), c);
    }

    /** Refuses new work, rejects every waiter and names the children whose end close() awaits. */
    method Close() returns (awaited: set<Call>)
      requires Valid()
      modifies this`waiting, this`closed
      ensures Valid() && Model() == old(Model()).(waiting := {}, closed := true)
      ensures awaited == Alive(old(owners))
    {
      closed := true;
      while |waiting| > 0
        invariant Counted() && closed
        decreases |waiting|
      {
        Done(waiting[0]);
      }
      awaited := pending;
    }
  }

  lemma AliveAfterHandOver(s: Slots, c: Call)
    requires s.Sound() && c in s.owners
    ensures Alive(HandOver(s, c).owners) == Alive(s.owners) - {c}
  {}

  // ---------------------------------------------------------------------------
  // Every run
  // ---------------------------------------------------------------------------

  datatype Event =
    | Calls(now: int, deadline: int, signalAborted: bool, maximumOutput: int)
    | Expires(c: Call)
    | Aborts(c: Call)
    | Resumes(c: Call, at: int)
    | Exits(c: Call)
    | Closes

  /** The slots, and what is remembered of each call: deadline, aborted signal, slot ownership, start time, result. */
  datatype World = World(slots: Slots, next: Call, deadlines: map<Call, int>, aborted: set<Call>,
                         everOwned: set<Call>, starts: map<Call, int>, results: map<Call, Outcome>)

  const INITIAL := World(Slots({}, map[], false), 0, map[], {}, {}, map[], map[])

  ghost predicate Enabled(w: World, e: Event) {
    match e
    case Calls(_, _, _, _) => true
    case Expires(c) => c in w.slots.waiting
    case Aborts(c) => c < w.next
    case Resumes(c, _) => c in w.slots.owners && w.slots.owners[c] == Due && c in w.deadlines
    case Exits(c) => c in w.slots.owners && w.slots.owners[c] == Live
    case Closes => true
  }

  /** Records the turn's new owners, and the start or result of call c. */
  ghost function Record(w: World, slots: Slots, c: Call, at: int, reply: Reply): World {
    w.(slots := slots,
       everOwned := w.everOwned + slots.owners.Keys,
       starts := if reply == Started then w.starts[c := at] else w.starts,
       results := if reply.Failed? then w.results[c := reply.reason] else w.results)
  }

  ghost function Leave(w: World, c: Call, reason: Outcome): World {
    w.(slots := w.slots.(waiting := w.slots.waiting - {c}), results := w.results[c := reason])
  }

  ghost function Step(w: World, e: Event): World
    requires Enabled(w, e)
  {
    match e
    case Calls(now, deadline, signalAborted, maximumOutput) =>
      var (slots, reply) := Arrive(w.slots, w.next, now, deadline, signalAborted, maximumOutput);
      var owned := if Admits(w.slots, signalAborted, maximumOutput) then {w.next} else {};
      Record(w.(next := w.next + 1, deadlines := w.deadlines[w.next := deadline], everOwned := w.everOwned + owned),
             slots, w.next, now, reply)
    case Expires(c) => Leave(w, c, Busy)
    case Aborts(c) =>
      var v := w.(aborted := w.aborted + {c});
      if c in w.slots.waiting then Leave(v, c, Cancelled) else v
    case Resumes(c, at) =>
      var (slots, reply) := Proceed(w.slots, c, at, w.deadlines[c], c in w.aborted);
      Record(w, slots, c, at, reply)
    case Exits(c) => Record(w, HandOver(w.slots, c), c, 0, Failed(Exited))
    case Closes =>
      w.(slots := w.slots.(waiting := {}, closed := true),
         results := w.results + map c | c in w.slots.waiting :: Cancelled)
  }

  ghost predicate Runs(w: World, es: seq<Event>, w': World)
    decreases |es|
  {
    if es == [] then w == w'
    else Enabled(w, es[0]) && Runs(Step(w, es[0]), es[1..], w')
  }

  /** Every call is in exactly one place: waiting, owning a slot, or settled with one result. */
  ghost predicate Placed(w: World) {
    && (forall c :: c in w.slots.waiting ==> 0 <= c < w.next && c !in w.slots.owners && c !in w.results)
    && (forall c :: c in w.slots.owners ==> 0 <= c < w.next && c !in w.results)
    && (forall c :: c in w.results ==> 0 <= c < w.next)
    && (forall c {:trigger c in w.results} :: 0 <= c < w.next ==> c in w.slots.waiting || c in w.slots.owners || c in w.results)
    && (forall c :: c in w.deadlines <==> 0 <= c < w.next)
  }

  /** No overtaking: nobody who ever owned a slot arrived after somebody who still waits. */
  ghost predicate InOrder(w: World) {
    && w.slots.owners.Keys <= w.everOwned
    && (forall c :: c in w.everOwned ==> c < w.next)
    && (forall c, q :: c in w.everOwned && q in w.slots.waiting ==> c < q)
  }

  /** Nothing starts at or past its deadline, and whatever is alive has started. */
  ghost predicate InTime(w: World) {
    && (forall c :: c in w.starts ==> c in w.deadlines && w.starts[c] < w.deadlines[c])
    && Alive(w.slots.owners) <= w.starts.Keys
  }

  ghost predicate Inv(w: World) {
    0 <= w.next && w.slots.Sound() && (w.slots.closed ==> w.slots.waiting == {}) && Placed(w) && InOrder(w) && InTime(w)
  }

  lemma HandOverKeepsInv(w: World, c: Call, at: int, reply: Reply)
    requires Inv(w) && c in w.slots.owners && reply.Failed?
    ensures Inv(Record(w, HandOver(w.slots, c), c, at, reply))
  {
    HandOverSound(w.slots, c);
    AliveAfterHandOver(w.slots, c);
  }

  lemma ProceedKeepsInv(w: World, c: Call, at: int, aborted: bool)
    requires Inv(w) && c in w.slots.owners && w.slots.owners[c] == Due
    ensures var (slots, reply) := Proceed(w.slots, c, at, w.deadlines[c], aborted);
            Inv(Record(w, slots, c, at, reply))
  {
    ProceedSound(w.slots, c, at, w.deadlines[c], aborted);
    var (slots, reply) := Proceed(w.slots, c, at, w.deadlines[c], aborted);
    if reply.Failed? {
      HandOverKeepsInv(w, c, at, reply);
    } else {
      assert slots.owners.Keys == w.slots.owners.Keys;
    }
  }

  ghost function Admitted(w: World, deadline: int): World {
    w.(slots := w.slots.(owners := w.slots.owners[w.next := Due]), next := w.next + 1,
       deadlines := w.deadlines[w.next := deadline], everOwned := w.everOwned + {w.next})
  }

  lemma AdmitKeepsInv(w: World, deadline: int)
    requires Inv(w) && |w.slots.owners| < MAX_RUNNING && 0 <= w.next
    ensures Inv(Admitted(w, deadline))
  {
    AdmitSound(w.slots, w.next);
    var u := Admitted(w, deadline);
    assert w.next !in w.slots.owners && w.next !in w.results && w.next !in w.starts;
    assert u.slots.owners.Keys == w.slots.owners.Keys + {w.next};
    assert Alive(u.slots.owners) == Alive(w.slots.owners);
  }

  lemma CallAdmitted(w: World, e: Event)
    requires Inv(w) && e.Calls? && Admits(w.slots, e.signalAborted, e.maximumOutput)
    ensures Inv(Step(w, e))
  {
    var u := Admitted(w, e.deadline);
    AdmitKeepsInv(w, e.deadline);
    assert u.slots.owners[w.next] == Due && u.deadlines[w.next] == e.deadline;
    ProceedKeepsInv(u, w.next, e.now, false);
    var (slots, reply) := Proceed(u.slots, w.next, e.now, e.deadline, false);
    assert Step(w, e) == Record(u, slots, w.next, e.now, reply);
  }

  ghost function Refused(w: World, deadline: int, reason: Outcome): World {
    w.(next := w.next + 1, deadlines := w.deadlines[w.next := deadline], results := w.results[w.next := reason])
  }

  ghost function Enqueued(w: World, deadline: int): World {
    w.(next := w.next + 1, deadlines := w.deadlines[w.next := deadline],
       slots := w.slots.(waiting := w.slots.waiting + {w.next}))
  }

  lemma RefusedKeepsInv(w: World, deadline: int, reason: Outcome)
    requires Inv(w)
    ensures Inv(Refused(w, deadline, reason))
  {
    RefusedPlaced(w, deadline, reason);
    RefusedInTime(w, deadline, reason);
  }

  lemma RefusedPlaced(w: World, deadline: int, reason: Outcome)
    requires 0 <= w.next && Placed(w)
    ensures Placed(Refused(w, deadline, reason))
  {
    assert w.next !in w.slots.owners && w.next !in w.slots.waiting;
  }

  lemma RefusedInTime(w: World, deadline: int, reason: Outcome)
    requires Placed(w) && InTime(w)
    ensures InTime(Refused(w, deadline, reason))
  {
    assert w.next !in w.starts;
  }

  lemma EnqueuedKeepsInv(w: World, deadline: int)
    requires Inv(w) && |w.slots.waiting| < MAX_WAITING && |w.slots.owners| == MAX_RUNNING && !w.slots.closed
    ensures Inv(Enqueued(w, deadline))
  {
    assert w.next !in w.slots.owners && w.next !in w.results && w.next !in w.starts;
  }

  lemma CallQueuedOrRefused(w: World, e: Event)
    requires Inv(w) && e.Calls? && !Admits(w.slots, e.signalAborted, e.maximumOutput)
    ensures Inv(Step(w, e))
  {
    var (slots, reply) := Arrive(w.slots, w.next, e.now, e.deadline, e.signalAborted, e.maximumOutput);
    assert w.everOwned + {} + w.slots.owners.Keys == w.everOwned;
    if reply.Failed? {
      RefusedKeepsInv(w, e.deadline, reply.reason);
      assert Step(w, e) == Refused(w, e.deadline, reply.reason);
    } else {
      EnqueuedKeepsInv(w, e.deadline);
      assert Step(w, e) == Enqueued(w, e.deadline);
    }
  }

  lemma StepKeepsInv(w: World, e: Event)
    requires Inv(w) && Enabled(w, e)
    ensures Inv(Step(w, e))
  {
    match e
    case Calls(_, _, signalAborted, maximumOutput) =>
      if Admits(w.slots, signalAborted, maximumOutput) { CallAdmitted(w, e); } else { CallQueuedOrRefused(w, e); }
    case Expires(c) =>
    case Aborts(c) =>
    case Resumes(c, at) => ProceedKeepsInv(w, c, at, c in w.aborted);
    case Exits(c) => HandOverKeepsInv(w, c, 0, Failed(Exited));
    case Closes =>
  }

  /** The invariant of every reachable state: slot count, capacity, order, deadlines, and one result per call. */
  lemma {:induction false} RunsKeepInv(w: World, es: seq<Event>, w': World)
    requires Inv(w) && Runs(w, es, w')
    ensures Inv(w')
    decreases |es|
  {
    if es != [] {
      StepKeepsInv(w, es[0]);
      RunsKeepInv(Step(w, es[0]), es[1..], w');
    }
  }

  lemma InitialInv()
    ensures Inv(INITIAL)
  {}

  /**
   In every run from the start: at most four slots are owned and at most sixteen calls wait, a call waits only
   while all four are owned, nobody who ever owned a slot came after somebody who waits, whatever is alive
   started before its deadline, and every call waits, owns a slot or has its one result.
   */
  lemma EveryRun(es: seq<Event>, w: World)
    requires Runs(INITIAL, es, w)
    ensures |w.slots.owners| <= MAX_RUNNING && |w.slots.waiting| <= MAX_WAITING
    ensures w.slots.waiting != {} ==> |w.slots.owners| == MAX_RUNNING && !w.slots.closed
    ensures forall c, q :: c in w.everOwned && q in w.slots.waiting ==> c < q
    ensures forall c :: c in Alive(w.slots.owners) ==> c in w.starts
    ensures forall c :: c in w.starts ==> c in w.deadlines && w.starts[c] < w.deadlines[c]
    ensures forall c {:trigger c in w.results} :: 0 <= c < w.next ==>
              (c in w.slots.waiting || c in w.slots.owners || c in w.results)
              && !(c in w.slots.waiting && c in w.slots.owners) && !(c in w.results && (c in w.slots.waiting || c in w.slots.owners))
  {
    ReachableInv(es, w);
  }

  lemma StepAfterClose(w: World, e: Event)
    requires Inv(w) && Enabled(w, e) && w.slots.closed
    ensures Step(w, e).slots.closed && Step(w, e).starts == w.starts
    ensures Alive(Step(w, e).slots.owners) <= Alive(w.slots.owners)
  {}

  lemma {:induction false} ClosedRun(w: World, es: seq<Event>, w': World)
    requires Inv(w) && w.slots.closed && Runs(w, es, w')
    ensures w'.slots.waiting == {} && w'.starts == w.starts && Alive(w'.slots.owners) <= Alive(w.slots.owners)
    decreases |es|
  {
    if es != [] {
      StepAfterClose(w, es[0]);
      StepKeepsInv(w, es[0]);
      ClosedRun(Step(w, es[0]), es[1..], w');
    }
  }

  /** Once closed, nothing starts, and whatever is alive is among the children whose end close() awaits. */
  lemma NothingSurvivesClose(w: World, es: seq<Event>, w': World)
    requires Inv(w) && Runs(Step(w, Closes), es, w')
    ensures Alive(w'.slots.owners) <= Alive(w.slots.owners)
    ensures w'.starts == w.starts && w'.slots.waiting == {}
  {
    StepKeepsInv(w, Closes);
    ClosedRun(Step(w, Closes), es, w');
  }

  lemma SettledAreNotAlive(w: World, awaited: set<Call>)
    requires Placed(w) && Alive(w.slots.owners) <= awaited && forall c :: c in awaited ==> c in w.results
    ensures Alive(w.slots.owners) == {}
  {
    assert forall c :: c in Alive(w.slots.owners) ==> c in w.slots.owners && c in awaited;
    assert forall c :: c !in Alive(w.slots.owners);
  }

  lemma ClosedKeepsInv(w: World, after: seq<Event>, w': World)
    requires Inv(w) && Runs(Step(w, Closes), after, w')
    ensures Inv(w')
  {
    StepKeepsInv(w, Closes);
    RunsKeepInv(Step(w, Closes), after, w');
  }

  lemma ReachableInv(es: seq<Event>, w: World)
    requires Runs(INITIAL, es, w)
    ensures Inv(w)
  {
    InitialInv();
    RunsKeepInv(INITIAL, es, w);
  }

  /** Once every child that close awaited has ended, none is alive. */
  lemma NoneAliveAfterClose(before: seq<Event>, w: World, after: seq<Event>, w': World)
    requires Runs(INITIAL, before, w) && Runs(Step(w, Closes), after, w')
    requires forall c :: c in Alive(w.slots.owners) ==> c in w'.results
    ensures Alive(w'.slots.owners) == {} && w'.slots.waiting == {}
  {
    ReachableInv(before, w);
    ClosedKeepsInv(w, after, w');
    NothingSurvivesClose(w, after, w');
    SettledAreNotAlive(w', Alive(w.slots.owners));
  }

  /** A settled call keeps its result: every call settles at most once. */
  lemma ResultsAreFinal(w: World, e: Event, c: Call)
    requires Inv(w) && Enabled(w, e) && c in w.results
    ensures c in Step(w, e).results && Step(w, e).results[c] == w.results[c]
  {
    assert c !in w.slots.waiting && c !in w.slots.owners;
  }

  // ---------------------------------------------------------------------------
  // Which calls start, and why the others fail
  // ---------------------------------------------------------------------------

  /** The slot of c passes to the call that has waited longest, or is free again. */
  ghost predicate PassesSlot(s: Slots, t: Slots, c: Call) {
    t.closed == s.closed &&
    if s.waiting == {} then t.waiting == {} && t.owners == s.owners - {c}
    else exists q :: q in s.waiting && (forall x :: x in s.waiting ==> q <= x)
                     && t.waiting == s.waiting - {q} && t.owners == (s.owners - {c})[q := Due]
  }

  /** The call starts in this turn: its child is alive, and nothing else changes. */
  ghost predicate StartsNow(w: World, t: World, c: Call, at: int) {
    && t.starts == w.starts[c := at] && t.results == w.results
    && t.slots == w.slots.(owners := w.slots.owners[c := Live])
  }

  /** The call ends in this turn with the reason, and nothing starts. */
  ghost predicate FailsNow(w: World, t: World, c: Call, reason: Outcome) {
    t.starts == w.starts && t.results == w.results[c := reason]
  }

  lemma HandOverPassesSlot(s: Slots, c: Call)
    ensures PassesSlot(s, HandOver(s, c), c)
  {
    if s.waiting != {} {
      var q := Oldest(s.waiting);
      assert q in s.waiting && forall x :: x in s.waiting ==> q <= x;
    }
  }

  /**
   A call that owns a slot starts exactly if the extension is open, its signal has not aborted and its deadline
   is ahead; otherwise it is busy exactly if the deadline has passed, else cancelled, and its slot passes on.
   */
  lemma ResumesExactly(w: World, c: Call, at: int)
    requires Enabled(w, Resumes(c, at))
    ensures var t := Step(w, Resumes(c, at));
            if !w.slots.closed && c !in w.aborted && at < w.deadlines[c] then StartsNow(w, t, c, at)
            else FailsNow(w, t, c, if w.deadlines[c] <= at then Busy else Cancelled) && PassesSlot(w.slots, t.slots, c)
  {
    HandOverPassesSlot(w.slots, c);
  }

  lemma ExitsExactly(w: World, c: Call)
    requires Enabled(w, Exits(c))
    ensures var t := Step(w, Exits(c)); FailsNow(w, t, c, Exited) && PassesSlot(w.slots, t.slots, c)
  {
    HandOverPassesSlot(w.slots, c);
  }

  lemma AdmittedTooLate(s: Slots, c: Call)
    requires s.Sound() && |s.owners| < MAX_RUNNING && c !in s.owners
    ensures HandOver(s.(owners := s.owners[c := Due]), c) == s
  {
    assert s.owners[c := Due] - {c} == s.owners;
  }

  /** What becomes of a call in the turn in which it arrives: the one reason for each refusal, and when it starts or waits. */
  lemma CallsExactly(w: World, now: int, deadline: int, signalAborted: bool, maximumOutput: int)
    requires Inv(w)
    ensures var t, c := Step(w, Calls(now, deadline, signalAborted, maximumOutput)), w.next;
            && t.next == c + 1 && t.deadlines == w.deadlines[c := deadline]
            && if maximumOutput < 1 || 12 * 1024 * 1024 < maximumOutput then FailsNow(w, t, c, InvalidRequest) && t.slots == w.slots
               else if w.slots.closed || signalAborted then FailsNow(w, t, c, Cancelled) && t.slots == w.slots
               else if |w.slots.owners| < 4 then
                 if now < deadline then StartsNow(w, t, c, now) else FailsNow(w, t, c, Busy) && t.slots == w.slots
               else if |w.slots.waiting| < 16 then
                 t.starts == w.starts && t.results == w.results && t.slots == w.slots.(waiting := w.slots.waiting + {c})
               else FailsNow(w, t, c, Busy) && t.slots == w.slots
  {
    assert w.next !in w.slots.owners;
    if |w.slots.owners| < MAX_RUNNING {
      AdmittedTooLate(w.slots, w.next);
      assert w.slots.owners[w.next := Due][w.next := Live] == w.slots.owners[w.next := Live];
    }
  }

  /** A waiter leaves the queue when its timer fires or its signal aborts, and everyone leaves it when the extension closes. */
  lemma WaitersLeaveExactly(w: World, e: Event)
    requires Enabled(w, e) && (e.Expires? || e.Aborts? || e.Closes?)
    ensures var t := Step(w, e);
            && t.starts == w.starts && t.slots.owners == w.slots.owners
            && match e
               case Closes =>
                 && t.slots.closed && t.slots.waiting == {} && t.aborted == w.aborted
                 && t.results == w.results + map c | c in w.slots.waiting :: Cancelled
               case Expires(c) =>
                 && t.slots == w.slots.(waiting := w.slots.waiting - {c}) && FailsNow(w, t, c, Busy) && t.aborted == w.aborted
               case Aborts(c) =>
                 && t.slots == w.slots.(waiting := w.slots.waiting - {c}) && t.aborted == w.aborted + {c}
                 && t.results == if c in w.slots.waiting then w.results[c := Cancelled] else w.results
  {}

  /** Still waiting, or owning a slot with its continuation to come. */
  ghost predicate Coming(w: World, c: Call) {
    c in w.slots.waiting || (c in w.slots.owners && w.slots.owners[c] == Due)
  }

  /** What does not change while others take their turns. */
  ghost predicate Unhurried(w: World, t: World) {
    t.slots.closed == w.slots.closed && t.aborted == w.aborted && t.deadlines == w.deadlines
  }

  lemma OthersMoveOn(w: World, c: Call, at: int) returns (e: Event)
    requires Inv(w) && c in w.slots.waiting
    ensures Enabled(w, e) && (e.Resumes? || e.Exits?) && Inv(Step(w, e))
    ensures Unhurried(w, Step(w, e)) && Coming(Step(w, e), c)
    ensures Work(Step(w, e)) <= Work(w)
    ensures Work(Step(w, e)) == Work(w) ==>
              |Step(w, e).slots.owners.Keys - Alive(Step(w, e).slots.owners)|
              < |w.slots.owners.Keys - Alive(w.slots.owners)|
  {
    assert |w.slots.owners| == |w.slots.owners.Keys|;
    e := OneMoreTurn(w, at);
    if e.Exits? { HandOverPassesSlot(w.slots, e.c); } else { ResumesExactly(w, e.c, at); }
  }

  /**
   Nobody is starved: while the extension is open, a call that waits or is due, is not aborted and has its
   deadline ahead starts after finitely many continuations and exits, however long its queue.
   */
  lemma {:induction false} EveryCallCanStart(w: World, c: Call, at: int) returns (es: seq<Event>, w': World)
    requires Inv(w) && Coming(w, c) && !w.slots.closed && c !in w.aborted && at < w.deadlines[c]
    ensures Runs(w, es, w') && Inv(w') && forall e :: e in es ==> e.Resumes? || e.Exits?
    ensures c in w'.starts && w'.starts[c] == at && c in Alive(w'.slots.owners)
    decreases Work(w), |w.slots.owners.Keys - Alive(w.slots.owners)|
  {
    var e;
    if c in w.slots.owners {
      e := Resumes(c, at);
      ResumesExactly(w, c, at);
      StepKeepsInv(w, e);
      es, w' := [e], Step(w, e);
      assert es[1..] == [];
    } else {
      e := OthersMoveOn(w, c, at);
      var rest;
      rest, w' := EveryCallCanStart(Step(w, e), c, at);
      es := [e] + rest;
      assert es[1..] == rest;
    }
  }

  /** Two turns for each waiter or due call, one for each live child. */
  ghost function Work(w: World): nat {
    2 * |w.slots.waiting| + |w.slots.owners|
  }

  lemma HandOverIsProgress(w: World, c: Call)
    requires Inv(w) && c in w.slots.owners
    ensures 2 * |HandOver(w.slots, c).waiting| + |HandOver(w.slots, c).owners| < Work(w)
  {
    HandOverSound(w.slots, c);
  }

  /**
   No slot is ever lost: from every reachable state, continuations and exits alone bring
   every call to its result and every slot back. (The clock of the continuations is free:
   here it is past every deadline or not, as the caller chooses.)
   */
  lemma {:induction false} EverySlotReturns(w: World, at: int) returns (es: seq<Event>, w': World)
    requires Inv(w)
    ensures Runs(w, es, w') && Inv(w')
    ensures forall e :: e in es ==> e.Resumes? || e.Exits?
    ensures w'.slots.owners.Keys == {} && w'.slots.waiting == {}
    ensures w'.next == w.next && forall c :: 0 <= c < w.next ==> c in w'.results
    decreases Work(w), |w.slots.owners.Keys - Alive(w.slots.owners)|
  {
    if w.slots.owners.Keys == {} {
      es, w' := [], w;
      assert |w.slots.owners| == |w.slots.owners.Keys|;
    } else {
      var e := OneMoreTurn(w, at);
      var rest;
      rest, w' := EverySlotReturns(Step(w, e), at);
      es := [e] + rest;
      assert es[1..] == rest;
    }
  }

  lemma OneMoreTurn(w: World, at: int) returns (e: Event)
    requires Inv(w) && w.slots.owners.Keys != {}
    ensures Enabled(w, e) && (e.Resumes? || e.Exits?) && Inv(Step(w, e)) && Step(w, e).next == w.next
    ensures Work(Step(w, e)) <= Work(w)
    ensures Work(Step(w, e)) == Work(w) ==>
              |Step(w, e).slots.owners.Keys - Alive(Step(w, e).slots.owners)|
              < |w.slots.owners.Keys - Alive(w.slots.owners)|
  {
    var c := Member(w.slots.owners.Keys);
    assert c in w.deadlines;
    if w.slots.owners[c] == Due {
      e := Resumes(c, at);
      StepKeepsInv(w, e);
      if Proceed(w.slots, c, at, w.deadlines[c], c in w.aborted).1 == Started {
        StartIsProgress(w, c);
      } else {
        HandOverIsProgress(w, c);
      }
    } else {
      e := Exits(c);
      StepKeepsInv(w, e);
      HandOverIsProgress(w, c);
    }
  }

  lemma StartIsProgress(w: World, c: Call)
    requires c in w.slots.owners
    ensures var t := w.slots.owners[c := Live];
            w.slots.owners[c] == Due ==>
              |t| == |w.slots.owners| && |t.Keys - Alive(t)| < |w.slots.owners.Keys - Alive(w.slots.owners)|
  {
    if w.slots.owners[c] == Due {
      var t := w.slots.owners[c := Live];
      assert t.Keys == w.slots.owners.Keys;
      assert |t.Keys| == |w.slots.owners.Keys|;
      assert t.Keys - Alive(t) == w.slots.owners.Keys - Alive(w.slots.owners) - {c};
    }
  }
}
