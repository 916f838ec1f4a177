/** The log queue: producers append to a ring that grows, one worker takes entries and prints
    them, and pausing sends the worker an end mark and waits for it. Every critical section is
    one step; steps of producers, worker and controller interleave freely. */
module LogQueue {
  import opened Common

  datatype Entry<M> = Message(text: M) | End

  /** The worker thread: not there, waiting for the lock or for an entry, holding an entry it
      has taken and not printed yet, or past its loop. */
  datatype Worker<M> = Absent | Waiting | Holding(text: M) | Ended

  /** What the protocol is about. `accepted` lists the messages taken from producers while the
      log was running, `printed` those that have reached the output. */
  datatype State<M> = State(
    pending: seq<Entry<M>>,
    capacity: nat,
    running: bool,
    joining: bool,
    worker: Worker<M>,
    accepted: seq<M>,
    printed: seq<M>)

  datatype Action<M> = Add(text: M) | Take | Print | Pause | Join | Resume

  // ----- the protocol -----

  /** One step, if it can be taken. The ring looks empty when it is completely full, so adding
      grows it before that happens; pausing does not. */
  function Step<M>(s: State<M>, a: Action<M>): (r: Option<State<M>>) {
    match a
    case Add(m) =>
      if !s.running then Some(s)
      else
        Some(s.(pending := s.pending + [Message(m)],
                capacity := if |s.pending| + 1 == s.capacity then 2 * s.capacity else s.capacity,
                accepted := s.accepted + [m]))
    case Take =>
      if s.worker != Waiting || s.pending == [] then None
      else
        Some(s.(pending := s.pending[1..],
                worker := if s.pending[0].End? then Ended else Holding(s.pending[0].text)))
    case Print =>
      if !s.worker.Holding? then None
      else Some(s.(worker := Waiting, printed := s.printed + [s.worker.text]))
    case Pause =>
      if s.joining then None
      else if !s.running then Some(s)
      else
        Some(s.(running := false, joining := true,
                pending := if |s.pending| + 1 == s.capacity then [] else s.pending + [End]))
    case Join =>
      if !s.joining || s.worker != Ended then None
      else Some(s.(joining := false, worker := Absent))
    case Resume =>
      if s.joining then None
      else if s.running then Some(s)
      else Some(s.(running := true, worker := Waiting))
  }

  function Start<M>(capacity: nat): (s: State<M>) {
    State([], capacity, true, false, Waiting, [], [])
  }

  /** A run: any actions in any order, None as soon as one of them cannot be taken. */
  function After<M>(s: State<M>, acts: seq<Action<M>>): (r: Option<State<M>>)
    decreases |acts|
  {
    if acts == [] then Some(s)
    else
      var next := Step(s, acts[0]);
      if next.None? then None else After(next.value, acts[1..])
  }

  // ----- what every run keeps -----

  function Texts<M>(p: seq<Entry<M>>): (ts: seq<M>) {
    if p == [] then []
    else (if p[0].Message? then [p[0].text] else []) + Texts(p[1..])
  }

  lemma {:induction false} TextsSnoc<M>(p: seq<Entry<M>>, e: Entry<M>)
    ensures Texts(p + [e]) == Texts(p) + if e.Message? then [e.text] else []
  {
    if p == [] {
      assert p + [e] == [e];
    } else {
      TextsSnoc(p[1..], e);
      assert (p + [e])[1..] == p[1..] + [e];
    }
  }

  function Held<M>(w: Worker<M>): seq<M> {
    if w.Holding? then [w.text] else []
  }

  /** No message is lost, repeated or overtaken. */
  ghost predicate Accounted<M>(s: State<M>) {
    s.accepted == s.printed + Held(s.worker) + Texts(s.pending)
  }

  /** The end mark is there, and last, exactly while a pause waits for a worker that has not
      seen it. */
  ghost predicate Orderly<M>(s: State<M>) {
    && |s.pending| < s.capacity
    && (forall i :: 0 <= i < |s.pending| && s.pending[i].End? ==> i == |s.pending| - 1)
    && ((|s.pending| > 0 && s.pending[|s.pending| - 1].End?) <==> (s.joining && s.worker != Ended))
    && (s.running ==> !s.joining && s.worker != Absent)
    && (s.worker == Absent <==> !s.running && !s.joining)
    && (s.worker == Ended ==> s.joining)
    && (s.worker in {Absent, Ended} ==> s.pending == [])
  }

  ghost predicate Inv<M>(s: State<M>) {
    Accounted(s) && Orderly(s)
  }

  /** A pause has room for its end mark. */
  predicate InTime<M>(s: State<M>, a: Action<M>) {
    a == Pause && s.running ==> |s.pending| + 2 <= s.capacity
  }

  predicate PausesInTime<M>(s: State<M>, acts: seq<Action<M>>)
    decreases |acts|
  {
    acts == [] ||
    (InTime(s, acts[0]) && (Step(s, acts[0]).Some? ==> PausesInTime(Step(s, acts[0]).value, acts[1..])))
  }

  lemma StartInv<M>(capacity: nat)
    requires capacity > 0
    ensures Inv(Start<M>(capacity))
  {}

  lemma StepKeepsOrder<M>(s: State<M>, a: Action<M>)
    requires Orderly(s) && InTime(s, a) && Step(s, a).Some?
    ensures Orderly(Step(s, a).value)
  {}

  lemma StepKeepsAccount<M>(s: State<M>, a: Action<M>)
    requires Accounted(s) && Orderly(s) && InTime(s, a) && Step(s, a).Some?
    ensures Accounted(Step(s, a).value)
  {
    match a {
      case Add(m) =>
        TextsSnoc(s.pending, Message(m));
        hide Texts;
        assert s.printed + Held(s.worker) + Texts(s.pending) + [m] == s.printed + Held(s.worker) + (Texts(s.pending) + [m]);
      case Take =>
        var rest := Texts(s.pending[1..]);
        assert Texts(s.pending) == (if s.pending[0].Message? then [s.pending[0].text] else []) + rest;
        hide Texts;
        if s.pending[0].Message? {
          assert s.printed + [] + ([s.pending[0].text] + rest) == s.printed + [s.pending[0].text] + rest;
        }
      case Print =>
        assert s.printed + [s.worker.text] + [] == s.printed + [s.worker.text];
      case Pause =>
        TextsSnoc(s.pending, End);
      case _ =>
    }
  }

  lemma StepKeepsInv<M>(s: State<M>, a: Action<M>)
    requires Inv(s) && InTime(s, a) && Step(s, a).Some?
    ensures Inv(Step(s, a).value)
  {
    StepKeepsOrder(s, a);
    StepKeepsAccount(s, a);
  }

  /** Over every run in which pauses come in time, the invariant holds at the end. */
  lemma {:induction false} RunKeepsInv<M>(s: State<M>, acts: seq<Action<M>>)
    requires Inv(s) && PausesInTime(s, acts) && After(s, acts).Some?
    ensures Inv(After(s, acts).value)
    decreases |acts|
  {
    hide Inv, InTime;
    if acts != [] {
      StepKeepsInv(s, acts[0]);
      RunKeepsInv(Step(s, acts[0]).value, acts[1..]);
    }
  }

  // ----- what single steps do -----

  function Messages<M>(ms: seq<M>): (p: seq<Entry<M>>) {
    seq(|ms|, i requires 0 <= i < |ms| => Message(ms[i]))
  }

  function AddAll<M>(ms: seq<M>): (acts: seq<Action<M>>) {
    seq(|ms|, i requires 0 <= i < |ms| => Add(ms[i]))
  }

  /** While the log runs any number of messages can be added, whatever the capacity: all of them
      wait in their order behind those already there, and the ring is never full. */
  lemma {:induction false} AllAreAdded<M>(s: State<M>, ms: seq<M>)
    requires Orderly(s) && s.running
    ensures
      var t := After(s, AddAll(ms));
      && t.Some? && Orderly(t.value) && t.value.pending == s.pending + Messages(ms)
      && t.value.accepted == s.accepted + ms && t.value.printed == s.printed && t.value.worker == s.worker
      && t.value.running && |t.value.pending| < t.value.capacity && s.capacity <= t.value.capacity
    decreases |ms|
  {
    if ms == [] {
      assert s.pending + Messages(ms) == s.pending && s.accepted + ms == s.accepted;
    } else {
      var a: Action<M> := Add(ms[0]);
      StepKeepsOrder(s, a);
      var next := Step(s, a).value;
      AllAreAdded(next, ms[1..]);
      assert AddAll(ms)[0] == a && AddAll(ms)[1..] == AddAll(ms[1..]);
      assert s.pending + Messages(ms) == s.pending + [Message(ms[0])] + Messages(ms[1..]);
      assert s.accepted + ms == s.accepted + [ms[0]] + ms[1..];
    }
  }

  /** While the log does not run a message is dropped. */
  lemma NoneIsAdded<M>(s: State<M>, m: M)
    requires !s.running
    ensures Step(s, Add(m)) == Some(s)
  {}

  /** After a pause has ended the log takes up work again: the next message is printed next. */
  lemma ResumedLogPrints<M>(s: State<M>, m: M)
    requires Inv(s) && s.worker == Absent
    ensures
      var t := After(s, [Resume, Add(m), Take, Print]);
      t.Some? && t.value.printed == s.printed + [m] && t.value.running && t.value.worker == Waiting && t.value.pending == []
  {
    var a: seq<Action<M>> := [Resume, Add(m), Take, Print];
    assert a[1..] == [Add(m), Take, Print] && a[1..][1..] == [Take, Print] && a[1..][1..][1..] == [Print];
    assert [] + [Message(m)] == [Message(m)] && [Message(m)][1..] == [];
    var s1 := Step(s, Resume).value;
    var s2 := Step(s1, Add(m)).value;
    var s3 := Step(s2, Take).value;
    assert After(s3, [Print]) == After(Step(s3, Print).value, [Print][1..]);
    assert After(s2, [Take, Print]) == After(s3, [Take, Print][1..]);
    assert After(s1, [Add(m), Take, Print]) == After(s2, [Add(m), Take, Print][1..]);
  }

  // ----- pausing ends -----

  /** Steps the worker still has to take. */
  function Work<M>(s: State<M>): nat {
    2 * |s.pending| + if s.worker.Holding? then 1 else 0
  }

  /** While a pause waits, nobody but the worker changes anything, and the worker gets on. */
  lemma OnlyTheWorkerMoves<M>(s: State<M>, a: Action<M>)
    requires Inv(s) && s.joining && Step(s, a).Some?
    ensures a.Add? ==> Step(s, a).value == s
    ensures a in {Take, Print} ==> Step(s, a).value.joining && Work(Step(s, a).value) < Work(s)
    ensures a.Join? ==> !Step(s, a).value.joining
    ensures a !in {Pause, Resume}
  {}

  /** A pause that waits in a state of the invariant can always be brought to its end. */
  lemma {:induction false} PauseEnds<M>(s: State<M>) returns (acts: seq<Action<M>>)
    requires Inv(s) && s.joining
    ensures After(s, acts).Some? && |acts| <= Work(s) + 1
    ensures !After(s, acts).value.joining && After(s, acts).value.printed == s.accepted
    decreases Work(s)
  {
    var a := if s.worker == Ended then Join else if s.worker.Holding? then Print else Take;
    StepKeepsInv(s, a);
    var next := Step(s, a).value;
    var rest := [];
    if a != Join {
      rest := PauseEnds(next);
    }
    acts := [a] + rest;
    assert acts[1..] == rest;
  }

  /** A pause found the ring one short of full: it looks empty, and the end mark is not seen. */
  predicate Stuck<M>(s: State<M>) {
    s.joining && !s.running && s.pending == [] && s.worker != Ended
  }

  /** What every run keeps, whenever its pauses come. */
  ghost predicate InvOrStuck<M>(s: State<M>) {
    Inv(s) || (Stuck(s) && s.printed + Held(s.worker) <= s.accepted)
  }

  lemma StepKeepsInvOrStuck<M>(s: State<M>, a: Action<M>)
    requires InvOrStuck(s) && Step(s, a).Some?
    ensures InvOrStuck(Step(s, a).value)
  {
    if Inv(s) && InTime(s, a) {
      StepKeepsInv(s, a);
    } else if Inv(s) {
      assert s.accepted == (s.printed + Held(s.worker)) + Texts(s.pending);
    } else if a.Print? {
      assert s.printed + [s.worker.text] + [] == s.printed + Held(s.worker);
    }
    hide Texts;
  }

  lemma {:induction false} EveryRunKeeps<M>(s: State<M>, acts: seq<Action<M>>)
    requires InvOrStuck(s) && After(s, acts).Some?
    ensures InvOrStuck(After(s, acts).value)
    decreases |acts|
  {
    hide InvOrStuck;
    if acts != [] {
      StepKeepsInvOrStuck(s, acts[0]);
      EveryRunKeeps(Step(s, acts[0]).value, acts[1..]);
    }
  }

  /** At any moment of any run the output is a beginning of what was accepted, and when a pause
      returns it is all of it. */
  lemma PrintedInOrder<M>(capacity: nat, acts: seq<Action<M>>)
    requires capacity > 0 && After(Start(capacity), acts).Some?
    ensures
      var s := After(Start(capacity), acts).value;
      s.printed <= s.accepted && (Step(s, Join).Some? ==> s.printed == s.accepted)
  {
    StartInv<M>(capacity);
    EveryRunKeeps(Start(capacity), acts);
    hide After;
    var s := After(Start(capacity), acts).value;
    if Inv(s) {
      assert s.accepted == s.printed + (Held(s.worker) + Texts(s.pending));
    }
  }

  lemma {:induction false} StuckForEver<M>(s: State<M>, acts: seq<Action<M>>)
    requires Stuck(s) && After(s, acts).Some?
    ensures Stuck(After(s, acts).value)
    ensures After(s, acts).value.printed + Held(After(s, acts).value.worker) == s.printed + Held(s.worker)
    decreases |acts|
  {
    if acts != [] {
      StuckForEver(Step(s, acts[0]).value, acts[1..]);
    }
  }

  ghost predicate Returns<M(!new)>(s: State<M>) {
    exists acts :: After(s, acts).Some? && !After(s, acts).value.joining
  }

  /** A pause can return exactly when it finds two free slots. */
  lemma PauseReturnsIff<M(!new)>(s: State<M>)
    requires Inv(s) && s.running
    ensures Returns(Step(s, Pause).value) <==> |s.pending| + 2 <= s.capacity
  {
    hide After;
    var t := Step(s, Pause).value;
    if |s.pending| + 2 <= s.capacity {
      StepKeepsInv(s, Pause);
      var acts := PauseEnds(t);
    } else if acts :| After(t, acts).Some? && !After(t, acts).value.joining {
      StuckForEver(t, acts);
    }
  }

  /** Otherwise what is pending is never printed, whatever happens. */
  lemma LatePauseLoses<M>(s: State<M>, acts: seq<Action<M>>)
    requires Inv(s) && s.running && |s.pending| + 1 == s.capacity
    requires After(Step(s, Pause).value, acts).Some?
    ensures After(Step(s, Pause).value, acts).value.printed <= s.printed + Held(s.worker)
  {
    StuckForEver(Step(s, Pause).value, acts);
  }

  function Adds<M>(m: M, n: nat): seq<Action<M>> {
    if n == 0 then [] else [Add(m)] + Adds(m, n - 1)
  }

  lemma {:induction false} AddsFill<M>(s: State<M>, m: M, n: nat)
    requires s.running && |s.pending| + n < s.capacity
    decreases n
    ensures After(s, Adds(m, n)).Some? && PausesInTime(s, Adds(m, n))
    ensures var t := After(s, Adds(m, n)).value;
      t.running && !t.joining == !s.joining && |t.pending| == |s.pending| + n && t.capacity == s.capacity
  {
    if n > 0 {
      AddsFill(Step(s, Add(m)).value, m, n - 1);
      assert Adds(m, n)[1..] == Adds(m, n - 1);
    }
  }

  /** Such a state is reached whatever the capacity: capacity - 1 messages that the worker has
      not got round to are enough. */
  lemma LatePauseHappens<M(!new)>(capacity: nat, m: M)
    requires capacity > 0
    ensures
      var s := After(Start(capacity), Adds(m, capacity - 1));
      s.Some? && s.value.running && !s.value.joining && s.value.printed == [] && |s.value.accepted| == capacity - 1 &&
      !Returns(Step(s.value, Pause).value)
  {
    var start := Start<M>(capacity);
    AddsFill(start, m, capacity - 1);
    StartInv<M>(capacity);
    RunKeepsInv(start, Adds(m, capacity - 1));
    var s := After(start, Adds(m, capacity - 1)).value;
    PauseReturnsIff(s);
    TextsAll(s.pending);
    OnlyAdds(start, m, capacity - 1);
  }

  lemma {:induction false} TextsAll<M>(p: seq<Entry<M>>)
    requires forall i :: 0 <= i < |p| ==> p[i].Message?
    ensures |Texts(p)| == |p|
  {
    if p != [] {
      TextsAll(p[1..]);
    }
  }

  lemma {:induction false} OnlyAdds<M>(s: State<M>, m: M, n: nat)
    requires s.running && After(s, Adds(m, n)).Some?
    decreases n
    ensures After(s, Adds(m, n)).value.printed == s.printed && After(s, Adds(m, n)).value.worker == s.worker
  {
    if n > 0 {
      assert Adds(m, n)[1..] == Adds(m, n - 1);
      OnlyAdds(Step(s, Add(m)).value, m, n - 1);
    }
  }

  // ----- the ring -----

  /** The entries from `head` up to `tail`, going round the end of `cells`. */
  function Pending<M>(cells: seq<Entry<M>>, head: nat, tail: nat): (p: seq<Entry<M>>)
    requires head < |cells| && tail < |cells|
    ensures |p| < |cells|
  {
    if head <= tail then cells[head..tail] else cells[head..] + cells[..tail]
  }

  function Forward(i: nat, n: nat): (j: nat)
    requires i < n
    ensures j < n
  {
    if i + 1 == n then 0 else i + 1
  }

  lemma ForwardIs(i: nat, n: nat)
    requires i < n
    ensures (i + 1) % n == Forward(i, n)
  {
    if i + 1 < n {
      SmallRemainder(i + 1, n);
    }
  }

  lemma SmallRemainder(k: nat, n: nat)
    requires k < n
    ensures k % n == k
  {}

  /** Writing at the tail appends, unless the tail runs into the head. */
  lemma PendingPush<M>(cells: seq<Entry<M>>, head: nat, tail: nat, e: Entry<M>)
    requires head < |cells| && tail < |cells|
    ensures
      var n := Forward(tail, |cells|);
      var was := Pending(cells, head, tail);
      && (|was| + 1 == |cells| <==> n == head)
      && (n == head ==> cells[tail := e][head..] + cells[tail := e][..head] == was + [e] && Pending(cells[tail := e], head, n) == [])
      && (n != head ==> Pending(cells[tail := e], head, n) == was + [e])
  {
    var n := Forward(tail, |cells|);
    var now := cells[tail := e];
    if head <= tail {
      if n == 0 {
        assert now[head..] == cells[head..tail] + [e];
      } else {
        assert now[head..n] == cells[head..tail] + [e];
      }
    } else {
      assert now[..tail + 1] == cells[..tail] + [e];
      assert now[head..] == cells[head..];
    }
  }

  lemma PendingPop<M>(cells: seq<Entry<M>>, head: nat, tail: nat)
    requires head < |cells| && tail < |cells| && head != tail
    ensures
      var was := Pending(cells, head, tail);
      was != [] && was[0] == cells[head] && Pending(cells, Forward(head, |cells|), tail) == was[1..]
  {}

  /** The k-th cell counted from `first`, going round the end. */
  function Around<M>(cells: seq<M>, first: nat, k: nat): (i: nat)
    requires first < |cells| && k <= |cells|
    ensures i < |cells|
  {
    if first + k < |cells| then first + k else first + k - |cells|
  }

  lemma AroundNext<M>(cells: seq<M>, first: nat, k: nat)
    requires first < |cells| && k < |cells|
    ensures Around(cells, first, k + 1) == (Around(cells, first, k) + 1) % |cells|
    ensures Around(cells, first, k + 1) == first <==> k + 1 == |cells|
  {
    ForwardIs(Around(cells, first, k), |cells|);
  }

  lemma AllAround<M>(cells: seq<M>, first: nat, all: seq<M>)
    requires first < |cells| && |all| == |cells|
    requires forall k :: 0 <= k < |cells| ==> all[k] == cells[Around(cells, first, k)]
    ensures all == cells[first..] + cells[..first]
  {}

  /** `common_log`: each method is one critical section, or one thing the worker does outside. */
  class Log<M> {
    var entries: array<Entry<M>>
    var head: nat
    var tail: nat
    var running: bool
    var joining: bool
    var worker: Worker<M>
    var printed: seq<M>
    ghost var accepted: seq<M>

    ghost predicate Valid()
      reads this
    {
      head < entries.Length && tail < entries.Length
    }

    ghost function Now(): State<M>
      requires Valid()
      reads this, entries
    {
      State(Pending(entries[..], head, tail), entries.Length, running, joining, worker, accepted, printed)
    }

    constructor (capacity: nat)
      requires capacity > 0
      ensures Valid() && fresh(entries) && Now() == Start(capacity)
    {
      entries := new Entry<M>[capacity](_ => End);
      head, tail, running, joining, worker, printed, accepted := 0, 0, true, false, Waiting, [], [];
    }

    method Add(text: M)
      requires Valid()
      modifies this, entries
      ensures Valid() && (entries == old(entries) || fresh(entries))
      ensures Step(old(Now()), Action.Add(text)) == Some(Now())
    {
      if !running {
        return;
      }
      PendingPush(entries[..], head, tail, Message(text));
      ghost var cells := entries[..][tail := Message(text)];
      entries[tail] := Message(text);
      assert entries[..] == cells;
      ForwardIs(tail, entries.Length);
      tail := (tail + 1) % entries.Length;
      hide Forward, Pending;
      accepted := accepted + [text];
      if tail == head {
        Grow();
      }
    }

    /** The ring is full from `head` round to `head`: move it into one of twice the size. */
    method Grow()
      requires Valid() && head == tail
      modifies this
      ensures Valid() && fresh(entries) && entries.Length == 2 * old(entries.Length)
      ensures Pending(entries[..], head, tail) == old(entries[head..] + entries[..head])
      ensures running == old(running) && joining == old(joining) && worker == old(worker)
      ensures printed == old(printed) && accepted == old(accepted)
    {
      ghost var was, first := entries[..], head;
      var bigger := new Entry<M>[2 * entries.Length](_ => End);
      var newTail := 0;
      var more := true;
      while more
        invariant 0 <= newTail <= |was| && head < |was| && more == (newTail < |was|)
        invariant head == Around(was, first, newTail)
        invariant forall k :: 0 <= k < newTail ==> bigger[k] == was[Around(was, first, k)]
        invariant entries[..] == was && tail == first && entries == old(entries) && fresh(bigger)
        invariant running == old(running) && joining == old(joining)
        invariant worker == old(worker) && printed == old(printed) && accepted == old(accepted)
        decreases |was| - newTail
      {
        bigger[newTail] := entries[head];
        AroundNext(was, first, newTail);
        head := (head + 1) % entries.Length;
        newTail := newTail + 1;
        more := head != tail;
      }
      AllAround(was, first, bigger[..newTail]);
      head := 0;
      tail := newTail;
      entries := bigger;
    }

    /** The worker takes an entry. */
    method Take()
      requires Valid() && worker == Waiting && head != tail
      modifies this
      ensures Valid() && entries == old(entries)
      ensures Step(old(Now()), Action.Take) == Some(Now())
    {
      PendingPop(entries[..], head, tail);
      var cur := entries[head];
      ForwardIs(head, entries.Length);
      head := (head + 1) % entries.Length;
      worker := if cur.End? then Ended else Holding(cur.text);
    }

    /** The worker prints what it has taken, without the lock. */
    method Print()
      requires Valid() && worker.Holding?
      modifies this
      ensures Valid() && entries == old(entries)
      ensures Step(old(Now()), Action.Print) == Some(Now())
    {
      printed := printed + [worker.text];
      worker := Waiting;
    }

    /** The locked part of `pause`. */
    method Pause()
      requires Valid() && !joining
      modifies this, entries
      ensures Valid() && entries == old(entries)
      ensures Step(old(Now()), Action.Pause) == Some(Now())
    {
      if !running {
        return;
      }
      running := false;
      PendingPush(entries[..], head, tail, End);
      ghost var cells := entries[..][tail := End];
      entries[tail] := End;
      assert entries[..] == cells;
      ForwardIs(tail, entries.Length);
      tail := (tail + 1) % entries.Length;
      joining := true;
    }

    /** The end of `pause`: the worker thread is gone. */
    method Join()
      requires Valid() && joining && worker == Ended
      modifies this
      ensures Valid() && entries == old(entries)
      ensures Step(old(Now()), Action.Join) == Some(Now())
    {
      joining := false;
      worker := Absent;
    }

    method Resume()
      requires Valid() && !joining
      modifies this
      ensures Valid() && entries == old(entries)
      ensures Step(old(Now()), Action.Resume) == Some(Now())
    {
      if running {
        return;
      }
      running := true;
      worker := Waiting;
    }
  }
}
