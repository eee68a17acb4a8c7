/** The queue between the threads that log and the one that prints (`common_log` in log.cpp). Each step below is one
    section of code run under the lock, or what the worker does with the entry it took. */
module LogQueue {
  datatype Entry = Entry(msg: string, isEnd: bool)

  /** Where the worker thread is: not there, waiting for entries, or holding one it took. */
  datatype Worker = Off | Idle | Busy(cur: Entry)

  // ---------------------------------------------------------------- the protocol

  /** `joining`: `pause` waits for the worker to end. `printed` records the messages. */
  datatype State = State(queue: seq<Entry>, capacity: nat, running: bool, joining: bool, worker: Worker,
                         printed: seq<string>)

  datatype Action = Add(msg: string) | Take | Finish | Pause(left: string) | Join | Resume

  /** One step of some thread; nothing happens if it must wait. The end that `pause` adds carries whatever message was
      left in its slot. */
  function Apply(s: State, a: Action): State {
    match a
    case Add(m) =>
      if !s.running then s
      else s.(queue := s.queue + [Entry(m, false)],
              capacity := if |s.queue| + 1 == s.capacity then 2 * s.capacity else s.capacity)
    case Take =>
      if s.worker != Idle || s.queue == [] then s else s.(worker := Busy(s.queue[0]), queue := s.queue[1..])
    case Finish =>
      if !s.worker.Busy? then s
      else if s.worker.cur.isEnd then s.(worker := Off)
      else s.(worker := Idle, printed := s.printed + [s.worker.cur.msg])
    case Pause(left) =>
      if !s.running then s
      else s.(running := false, joining := true,
              queue := if |s.queue| + 1 < s.capacity then s.queue + [Entry(left, true)] else [])
    case Join => if s.joining && s.worker == Off then s.(joining := false) else s
    case Resume => if s.running || s.joining then s else s.(running := true, worker := Idle)
  }

  function Run(s: State, acts: seq<Action>): State
    decreases |acts|
  {
    if acts == [] then s else Run(Apply(s, acts[0]), acts[1..])
  }

  function Started(capacity: nat): State { State([], capacity, true, false, Idle, []) }

  function Messages(es: seq<Entry>): seq<string> {
    if es == [] then [] else (if es[0].isEnd then [] else [es[0].msg]) + Messages(es[1..])
  }

  function Held(w: Worker): seq<Entry> { if w.Busy? then [w.cur] else [] }

  /** The entries on their way to the printer. */
  function InFlight(s: State): seq<Entry> { Held(s.worker) + s.queue }

  predicate NoEnd(es: seq<Entry>) { forall i :: 0 <= i < |es| ==> !es[i].isEnd }

  /** `pause` needs a slot for the end, besides the one the ring keeps free. */
  predicate HasRoom(s: State) { |s.queue| < s.capacity - 1 }

  /** The worker will never see an end. */
  predicate Stuck(s: State) { s.joining && s.worker != Off && s.queue == [] && NoEnd(InFlight(s)) }

  /** Nothing is lost, reordered or printed twice, and there is an end on its way exactly while a pause waits. */
  predicate Inv(s: State) {
    && |s.queue| < s.capacity
    && (s.running ==> !s.joining && s.worker != Off)
    && (!s.joining ==> NoEnd(InFlight(s)))
    && (!s.running && !s.joining ==> s.worker == Off && s.queue == [])
    && (s.worker == Off ==> s.queue == [])
    && (s.joining ==> Stuck(s) || s.worker == Off || EndsOnce(InFlight(s)))
  }

  predicate EndsOnce(es: seq<Entry>) { es != [] && es[|es| - 1].isEnd && NoEnd(es[..|es| - 1]) }

  /** What is printed, and what will be. */
  function Delivered(s: State): seq<string> { s.printed + Messages(InFlight(s)) }

  // ---------------------------------------------------------------- what the steps ask for

  /** Where the log is between `pause` and `resume`. */
  datatype Phase = Running | Pausing | Paused

  function PhaseOf(s: State): Phase {
    if s.running then Running else if s.joining then Pausing else Paused
  }

  /** A pause stops a running log, the join, once the worker has ended, completes the pause, and a paused log can be
      resumed. */
  function Next(p: Phase, a: Action, ended: bool): Phase {
    match a
    case Pause(_) => if p == Running then Pausing else p
    case Join => if p == Pausing && ended then Paused else p
    case Resume => if p == Paused then Running else p
    case _ => p
  }

  /** The phase after the steps; of the state, only whether the worker has ended is looked at. */
  function Phases(p: Phase, s: State, acts: seq<Action>): Phase
    decreases |acts|
  {
    if acts == [] then p else Phases(Next(p, acts[0], s.worker == Off), Apply(s, acts[0]), acts[1..])
  }

  /** The messages added while the log is running, in order. */
  function Heard(p: Phase, s: State, acts: seq<Action>): seq<string>
    decreases |acts|
  {
    if acts == [] then []
    else
      var now := if acts[0].Add? && p == Running then [acts[0].msg] else [];
      now + Heard(Next(p, acts[0], s.worker == Off), Apply(s, acts[0]), acts[1..])
  }

  lemma {:induction false} MessagesAppend(a: seq<Entry>, b: seq<Entry>)
    ensures Messages(a + b) == Messages(a) + Messages(b)
  {
    if a == [] {
      assert a + b == b;
    } else {
      assert (a + b)[1..] == a[1..] + b;
      MessagesAppend(a[1..], b);
    }
  }

  lemma MessagesOne(e: Entry, es: seq<Entry>)
    ensures Messages([e]) == if e.isEnd then [] else [e.msg]
    ensures Messages([e] + es) == Messages([e]) + Messages(es)
  {
    MessagesAppend([e], es);
    assert [e][1..] == [];
  }

  lemma InvFinish(s: State)
    requires Inv(s) && s.worker.Busy?
    ensures Inv(Apply(s, Finish))
  {
    var s' := Apply(s, Finish);
    assert InFlight(s)[0] == s.worker.cur && InFlight(s)[1..] == s.queue;
    assert s.worker.cur.isEnd ==> s.joining && !NoEnd(InFlight(s)) && EndsOnce(InFlight(s));
    assert |InFlight(s)| > 1 ==> InFlight(s)[..|InFlight(s)| - 1][0] == s.worker.cur;
    assert !s.worker.cur.isEnd ==> InFlight(s') == s.queue;
    if !s.worker.cur.isEnd && s.queue != [] {
      assert s.queue[..|s.queue| - 1] == InFlight(s)[..|InFlight(s)| - 1][1..];
    }
  }

  lemma InvAdd(s: State, m: string)
    requires Inv(s)
    ensures Inv(Apply(s, Add(m)))
  {
    assert s.running ==> InFlight(Apply(s, Add(m))) == InFlight(s) + [Entry(m, false)];
  }

  lemma InvPause(s: State, left: string)
    requires Inv(s)
    ensures Inv(Apply(s, Pause(left)))
  {
    assert s.running && HasRoom(s) ==> InFlight(Apply(s, Pause(left))) == InFlight(s) + [Entry(left, true)];
  }

  lemma InvOther(s: State, a: Action)
    requires Inv(s) && (a == Take || a == Join || a == Resume)
    ensures Inv(Apply(s, a))
  {
    assert a == Take ==> InFlight(Apply(s, a)) == InFlight(s);
  }

  lemma InvStep(s: State, a: Action)
    requires Inv(s)
    ensures Inv(Apply(s, a))
  {
    hide Inv;
    match a
    case Add(m) => InvAdd(s, m);
    case Finish => if s.worker.Busy? { InvFinish(s); }
    case Pause(left) => InvPause(s, left);
    case _ => InvOther(s, a);
  }

  lemma PhaseStep(s: State, a: Action)
    requires Inv(s)
    ensures PhaseOf(Apply(s, a)) == Next(PhaseOf(s), a, s.worker == Off)
  {
  }

  lemma DeliveredAdd(s: State, m: string)
    ensures Delivered(Apply(s, Add(m))) == Delivered(s) + if s.running then [m] else []
  {
    hide Messages;
    if s.running {
      assert InFlight(Apply(s, Add(m))) == InFlight(s) + [Entry(m, false)];
      MessagesAppend(InFlight(s), [Entry(m, false)]);
      MessagesOne(Entry(m, false), []);
    }
  }

  lemma DeliveredFinish(s: State)
    ensures Delivered(Apply(s, Finish)) == Delivered(s) && s.printed <= Apply(s, Finish).printed
  {
    hide Messages;
    if s.worker.Busy? {
      assert InFlight(s) == [s.worker.cur] + s.queue && InFlight(Apply(s, Finish)) == s.queue;
      MessagesOne(s.worker.cur, s.queue);
    }
  }

  lemma DeliveredPause(s: State, left: string)
    requires s.running ==> HasRoom(s)
    ensures Delivered(Apply(s, Pause(left))) == Delivered(s)
  {
    hide Messages;
    if s.running {
      assert InFlight(Apply(s, Pause(left))) == InFlight(s) + [Entry(left, true)];
      MessagesAppend(InFlight(s), [Entry(left, true)]);
      MessagesOne(Entry(left, true), []);
    }
  }

  /** A step delivers the message it adds to a running log, and nothing else; what is printed stays printed. */
  lemma DeliveredStep(s: State, a: Action)
    requires Inv(s) && (a.Pause? && s.running ==> HasRoom(s))
    ensures Delivered(Apply(s, a)) == Delivered(s) + if a.Add? && PhaseOf(s) == Running then [a.msg] else []
    ensures s.printed <= Apply(s, a).printed
  {
    hide Messages, Inv;
    match a
    case Add(m) => DeliveredAdd(s, m);
    case Take => assert InFlight(Apply(s, a)) == InFlight(s);
    case Finish => DeliveredFinish(s);
    case Pause(left) => DeliveredPause(s, left);
    case Join =>
    case Resume => DeliveredResume(s);
  }

  lemma DeliveredResume(s: State)
    requires Inv(s)
    ensures Delivered(Apply(s, Resume)) == Delivered(s)
  {
  }

  /** Every pause in the run finds room for its end. */
  predicate RoomToPause(s: State, acts: seq<Action>)
    decreases |acts|
  {
    acts == [] || ((acts[0].Pause? && s.running ==> HasRoom(s)) && RoomToPause(Apply(s, acts[0]), acts[1..]))
  }

  lemma NotStuckStep(s: State, a: Action)
    requires Inv(s) && !Stuck(s) && (a.Pause? && s.running ==> HasRoom(s))
    ensures !Stuck(Apply(s, a))
  {
    var s' := Apply(s, a);
    if s.joining && s.worker != Off {
      assert EndsOnce(InFlight(s));
      if a == Take { assert InFlight(s') == InFlight(s); }
      if a == Finish && s.worker.Busy? { assert InFlight(s') == InFlight(s)[1..]; }
    }
    if a.Pause? && s.running { assert InFlight(s') == InFlight(s) + [Entry(a.left, true)]; }
  }

  /** Over any interleaving, pauses and resumptions included, while every pause finds room: what is printed, then the
      entry the worker holds, then the queue, grow by exactly the messages added between the start or a resumption and
      the next pause, in that order; and when the log is running is a matter of those steps. */
  lemma {:induction false} FirstInFirstOut(s: State, acts: seq<Action>)
    requires Inv(s) && !Stuck(s) && RoomToPause(s, acts)
    ensures Inv(Run(s, acts)) && !Stuck(Run(s, acts))
    ensures Delivered(Run(s, acts)) == Delivered(s) + Heard(PhaseOf(s), s, acts)
    ensures s.printed <= Run(s, acts).printed
    ensures PhaseOf(Run(s, acts)) == Phases(PhaseOf(s), s, acts)
    decreases |acts|
  {
    hide Inv, Stuck, Delivered;
    if acts != [] {
      InvStep(s, acts[0]);
      PhaseStep(s, acts[0]);
      DeliveredStep(s, acts[0]);
      NotStuckStep(s, acts[0]);
      FirstInFirstOut(Apply(s, acts[0]), acts[1..]);
    }
  }

  /** A log from its construction on, while every pause finds room: nothing is lost, reordered or repeated, a paused log
      has printed all it was given while it was running, and no end is left for the next worker. */
  lemma LogIsFaithful(capacity: nat, acts: seq<Action>)
    requires capacity > 0 && RoomToPause(Started(capacity), acts)
    ensures var r := Run(Started(capacity), acts);
            var heard := Heard(Running, Started(capacity), acts);
            && r.printed + Messages(InFlight(r)) == heard
            && (!r.running && !r.joining ==> r.printed == heard)
            && (r.running ==> NoEnd(InFlight(r)))
            && (r.running <==> Phases(Running, Started(capacity), acts) == Running)
  {
    FirstInFirstOut(Started(capacity), acts);
  }

  // ---------------------------------------------------------------- pausing

  /** No other call of pause or resume. */
  predicate Quiet(acts: seq<Action>) {
    forall i :: 0 <= i < |acts| ==> !acts[i].Pause? && acts[i] != Resume
  }

  /** How many entries the worker takes in the run. */
  function Takes(s: State, acts: seq<Action>): nat
    decreases |acts|
  {
    if acts == [] then 0
    else (if acts[0] == Take && Apply(s, acts[0]) != s then 1 else 0) + Takes(Apply(s, acts[0]), acts[1..])
  }

  /** What is left for the worker to do. */
  function Work(s: State): nat {
    2 * |s.queue| + if s.worker.Busy? then 1 else 0
  }

  /** While a pause with room waits, only the worker and the join can act. */
  ghost predicate Draining(s0: State, s: State, takes: nat) {
    && Inv(s) && !Stuck(s) && !s.running && Delivered(s) == Delivered(s0)
    && takes + |s.queue| == |s0.queue| + 1
  }

  lemma DrainStep(s0: State, s: State, takes: nat, a: Action)
    requires Draining(s0, s, takes) && !a.Pause? && a != Resume
    ensures Draining(s0, Apply(s, a), takes + Takes(s, [a]))
  {
    hide Delivered;
    InvStep(s, a);
    DeliveredStep(s, a);
    NotStuckStep(s, a);
    assert [a][1..] == [];
  }

  lemma {:induction false} DrainRun(s0: State, s: State, takes: nat, acts: seq<Action>)
    requires Draining(s0, s, takes) && Quiet(acts)
    ensures Draining(s0, Run(s, acts), takes + Takes(s, acts))
    decreases |acts|
  {
    if acts != [] {
      DrainStep(s0, s, takes, acts[0]);
      assert [acts[0]][1..] == [];
      DrainRun(s0, Apply(s, acts[0]), takes + Takes(s, [acts[0]]), acts[1..]);
    }
  }

  /** A pause that finds room. In every continuation, whenever the pause has returned, the worker has taken exactly the
      pending entries and the end, everything that was on its way is printed, and the ring is empty. Until then some
      step of the worker, or the join, is possible. */
  lemma PauseDrains(s: State, left: string, acts: seq<Action>)
    requires Inv(s) && s.running && HasRoom(s) && Quiet(acts)
    ensures var r := Run(Apply(s, Pause(left)), acts);
            && r.printed + Messages(InFlight(r)) == s.printed + Messages(InFlight(s))
            && (!r.joining ==> r.printed == s.printed + Messages(InFlight(s)) && r.queue == [] && r.worker == Off
                               && Takes(Apply(s, Pause(left)), acts) == |s.queue| + 1)
            && (r.joining ==> Apply(r, Join) != r || Apply(r, Take) != r || Apply(r, Finish) != r)
  {
    InvStep(s, Pause(left));
    DeliveredStep(s, Pause(left));
    NotStuckStep(s, Pause(left));
    DrainRun(s, Apply(s, Pause(left)), 0, acts);
    var r := Run(Apply(s, Pause(left)), acts);
    assert r.joining && r.worker == Idle ==> InFlight(r) == r.queue;
  }

  /** Every step of the worker leaves it less to do, and nothing adds to it: it ends after at most `Work` steps. */
  lemma WorkShrinks(s: State, a: Action)
    requires !s.running && a != Resume
    ensures Work(Apply(s, a)) <= Work(s)
    ensures (a == Take || (a == Finish && s.worker.Busy?)) && Apply(s, a) != s ==> Work(Apply(s, a)) < Work(s)
  {
  }

  lemma StuckStep(s: State, a: Action)
    requires Stuck(s)
    ensures Stuck(Apply(s, a)) || s.running
    ensures !s.running ==> Apply(s, a).printed + Messages(InFlight(Apply(s, a))) == s.printed + Messages(InFlight(s))
    ensures !s.running ==> !Apply(s, a).running
  {
    if a == Finish && s.worker.Busy? {
      assert InFlight(s) == [s.worker.cur] + [] && InFlight(Apply(s, a)) == [];
      MessagesOne(s.worker.cur, []);
    }
  }

  lemma {:induction false} StuckRun(s: State, acts: seq<Action>)
    requires Stuck(s) && !s.running
    ensures Stuck(Run(s, acts)) && !Run(s, acts).running
    ensures Run(s, acts).printed + Messages(InFlight(Run(s, acts))) == s.printed + Messages(InFlight(s))
    decreases |acts|
  {
    if acts != [] {
      StuckStep(s, acts[0]);
      StuckRun(Apply(s, acts[0]), acts[1..]);
    }
  }

  /** The step a waiting pause needs next. */
  function Urgent(s: State): Action {
    if s.worker == Off then Join else if s.worker == Idle then Take else Finish
  }

  lemma UrgentHelps(s: State)
    requires Inv(s) && !Stuck(s) && s.joining
    ensures if s.worker == Off then !Apply(s, Urgent(s)).joining else Work(Apply(s, Urgent(s))) < Work(s)
  {
    assert s.worker == Idle ==> InFlight(s) == s.queue;
  }

  lemma RunFirst(s: State, a: Action, acts: seq<Action>)
    ensures Run(s, [a] + acts) == Run(Apply(s, a), acts)
  {
    assert ([a] + acts)[1..] == acts;
  }

  lemma {:induction false} PauseReturns(s0: State, s: State, takes: nat)
    requires Draining(s0, s, takes)
    ensures exists acts :: Quiet(acts) && !Run(s, acts).joining
    decreases Work(s)
  {
    hide Inv, Delivered, Apply, Takes, Work;
    var a := Urgent(s);
    if !s.joining {
      assert Quiet([]) && !Run(s, []).joining;
    } else {
      UrgentHelps(s);
      if s.worker == Off {
        RunFirst(s, a, []);
        assert Quiet([a] + []);
      } else {
        DrainStep(s0, s, takes, a);
        PauseReturns(s0, Apply(s, a), takes + Takes(s, [a]));
        var acts :| Quiet(acts) && !Run(Apply(s, a), acts).joining;
        RunFirst(s, a, acts);
        assert Quiet([a] + acts);
      }
    }
  }

  /** A call of pause can return if and only if fewer than `capacity - 1` entries are pending. Otherwise the end
      fills the ring, head meets tail, and the worker waits for ever on entries it takes for none: none of them is
      printed. */
  lemma PauseReturnsIffRoom(s: State, left: string)
    requires Inv(s) && s.running
    ensures (exists acts :: !Run(Apply(s, Pause(left)), acts).joining) <==> HasRoom(s)
    ensures !HasRoom(s) ==>
              forall acts :: Run(Apply(s, Pause(left)), acts).printed <= s.printed + Messages(Held(s.worker))
  {
    var p := Apply(s, Pause(left));
    if HasRoom(s) {
      InvStep(s, Pause(left));
      DeliveredStep(s, Pause(left));
      NotStuckStep(s, Pause(left));
      PauseReturns(s, p, 0);
    } else {
      assert InFlight(p) == Held(s.worker);
      assert forall i :: 0 <= i < |Held(s.worker)| ==> InFlight(s)[i] == Held(s.worker)[i];
      forall acts ensures Run(p, acts).joining && Run(p, acts).printed <= s.printed + Messages(Held(s.worker)) {
        StuckRun(p, acts);
      }
    }
  }

  // ---------------------------------------------------------------- the ring

  /** `common_log`: the entries between `head` and `tail`, going round, are pending. */
  class CommonLog {
    var entries: array<Entry>
    var head: nat
    var tail: nat
    var running: bool
    var worker: Worker
    var joining: bool
    var output: seq<string>

    ghost predicate Valid()
      reads this, entries
    {
      head < entries.Length && tail < entries.Length
    }

    /** The pending entries. */
    ghost function Pending(): seq<Entry>
      reads this, entries
      requires Valid()
    {
      Segment(entries[..], head, tail)
    }

    /** The log as the protocol sees it. */
    ghost function Abstract(): State
      reads this, entries
      requires Valid()
    {
      State(Pending(), entries.Length, running, joining, worker, output)
    }

    constructor (capacity: nat)
      requires capacity > 0
      ensures Valid() && fresh(entries) && Abstract() == Started(capacity)
    {
      entries := new Entry[capacity](_ => Entry("", false));
      head, tail, running, worker, joining := 0, 0, true, Idle, false;
      output := [];
    }

    /** Stores an entry at the tail; a ring that fills up is replaced by one twice its size. */
    method AddEntry(msg: string)
      requires Valid()
      modifies this, entries
      ensures Valid() && running == old(running)
      ensures Pending() == if running then old(Pending()) + [Entry(msg, false)] else old(Pending())
      ensures running && |old(Pending())| + 1 == old(entries.Length) ==>
                fresh(entries) && entries.Length == 2 * old(entries.Length)
      ensures !running || |old(Pending())| + 1 < old(entries.Length) ==> entries == old(entries)
      ensures Abstract() == Apply(old(Abstract()), Add(msg))
    {
      if !running {
        return;
      }
      ghost var before := Pending();
      Store(Entry(msg, false));
      if tail == head {
        Expand(before + [Entry(msg, false)]);
      }
    }

    /** Writes at the tail and moves it on. */
    method Store(e: Entry)
      requires Valid()
      modifies this`tail, entries
      ensures Valid()
      ensures tail != head <==> |old(Pending())| + 1 < entries.Length
      ensures tail != head ==> Pending() == old(Pending()) + [e]
      ensures tail == head ==> Whole(entries[..], head) == old(Pending()) + [e]
    {
      ghost var s := entries[..];
      entries[tail] := e;
      StoredAtTail(s, head, tail, e);
      assert entries[..] == s[tail := e];
      tail := (tail + 1) % entries.Length;
    }

    /** Moves the entries of a full ring to the front of a new one. */
    method Expand(ghost all: seq<Entry>)
      requires Valid() && tail == head && Whole(entries[..], head) == all
      modifies this`head, this`tail, this`entries
      ensures Valid() && fresh(entries) && entries.Length == 2 * old(entries.Length)
      ensures Pending() == all
    {
      var newEntries := new Entry[2 * entries.Length](_ => Entry("", false));
      var newTail := 0;
      ghost var start, s := head, entries[..];
      while true
        invariant newTail < entries.Length && head == (start + newTail) % entries.Length
        invariant entries[..] == s && entries.Length == |s| && newEntries.Length == 2 * |s| && tail == start
        invariant newEntries[..newTail] == all[..newTail]
        decreases entries.Length - newTail
      {
        newEntries[newTail] := entries[head];
        WholeAt(s, start, newTail);
        head := (head + 1) % entries.Length;
        newTail := newTail + 1;
        NextOnRing(start, newTail, |s|);
        assert newEntries[..newTail] == all[..newTail];
        if head == tail {
          break;
        }
      }
      assert newTail == |s| && all[..newTail] == all;
      head := 0;
      tail := newTail;
      entries := newEntries;
    }

    /** The worker, under the lock: waits until the ring is not empty, and takes the first entry. */
    method TakeEntry()
      requires Valid()
      modifies this`head, this`worker
      ensures Valid() && Abstract() == Apply(old(Abstract()), Take)
    {
      if worker == Idle && head != tail {
        TakenAtHead(entries[..], head, tail);
        worker := Busy(entries[head]);
        head := (head + 1) % entries.Length;
      }
    }

    /** The worker, without the lock: prints the entry it holds, or ends. */
    method FinishEntry()
      requires Valid()
      modifies this`worker, this`output
      ensures Valid() && Abstract() == Apply(old(Abstract()), Finish)
    {
      if worker.Busy? {
        if worker.cur.isEnd {
          worker := Off;
        } else {
          output := output + [worker.cur.msg];
          worker := Idle;
        }
      }
    }

    /** `pause` up to the join: marks the slot at the tail as the end, and does not expand the ring. */
    method BeginPause() returns (ghost left: string)
      requires Valid()
      modifies this, entries
      ensures Valid() && entries == old(entries) && !running
      ensures Abstract() == Apply(old(Abstract()), Pause(left))
    {
      left := entries[tail].msg;
      if !running {
        return;
      }
      running := false;
      Store(entries[tail].(isEnd := true));
      joining := true;
    }

    /** The join in `pause`. */
    method JoinWorker()
      requires Valid()
      modifies this`joining
      ensures Valid() && Abstract() == Apply(old(Abstract()), Join)
    {
      if joining && worker == Off {
        joining := false;
      }
    }

    method ResumeLog()
      requires Valid()
      modifies this`running, this`worker
      ensures Valid() && (running <==> old(running) || !old(joining))
      ensures Abstract() == Apply(old(Abstract()), Resume)
    {
      if !running && !joining {
        running := true;
        worker := Idle;
      }
    }
  }

  lemma TakenAtHead(es: seq<Entry>, head: nat, tail: nat)
    requires head < |es| && tail < |es| && head != tail
    ensures var head' := (head + 1) % |es|;
            head' < |es| && Segment(es, head, tail) == [es[head]] + Segment(es, head', tail)
  {
    RoundOnce(head + 1, |es|);
  }

  /** The head is at the tail exactly when nothing is pending: a ring never fills up. */
  lemma EmptyIffMeet(es: seq<Entry>, head: nat, tail: nat)
    requires head < |es| && tail < |es|
    ensures Segment(es, head, tail) == [] <==> head == tail
    ensures |Segment(es, head, tail)| < |es|
  {
  }

  /** The entries from `head` up to `tail`, going round. */
  function Segment(es: seq<Entry>, head: nat, tail: nat): seq<Entry>
    requires head < |es| && tail < |es|
  {
    if head <= tail then es[head..tail] else es[head..] + es[..tail]
  }

  /** All the entries, from `head` round. */
  function Whole(es: seq<Entry>, head: nat): seq<Entry>
    requires head < |es|
  {
    es[head..] + es[..head]
  }

  lemma StoredAtTail(es: seq<Entry>, head: nat, tail: nat, e: Entry)
    requires head < |es| && tail < |es|
    ensures var tail' := (tail + 1) % |es|;
            var es' := es[tail := e];
            && tail' < |es|
            && (tail' != head <==> |Segment(es, head, tail)| + 1 < |es|)
            && (tail' != head ==> Segment(es', head, tail') == Segment(es, head, tail) + [e])
            && (tail' == head ==> Whole(es', head) == Segment(es, head, tail) + [e])
  {
    RoundOnce(tail + 1, |es|);
    var before, after := Segment(es, head, tail), es[tail := e];
    if tail + 1 == |es| {
      assert tail >= head ==> after[head..] == es[head..tail] + [e];
    } else if tail < head {
      assert after[head..] == es[head..] && after[..tail + 1] == es[..tail] + [e];
    } else {
      assert after[head..tail + 1] == es[head..tail] + [e];
    }
  }

  lemma RoundOnce(x: nat, n: nat)
    requires x < 2 * n
    ensures x % n == if x < n then x else x - n
  {
    if x >= n { assert x == n + (x - n); }
  }

  lemma WholeAt(es: seq<Entry>, head: nat, k: nat)
    requires head < |es| && k < |es|
    ensures Whole(es, head)[k] == es[(head + k) % |es|]
  {
    RoundOnce(head + k, |es|);
  }

  /** Going round once and no more. */
  lemma NextOnRing(start: nat, k: nat, n: nat)
    requires start < n && 0 < k <= n
    ensures (start + k) % n == ((start + k - 1) % n + 1) % n
    ensures (start + k) % n == start <==> k == n
  {
    var at := (start + k - 1) % n;
    RoundOnce(start + k - 1, n);
    RoundOnce(start + k, n);
    RoundOnce(at + 1, n);
  }
}
