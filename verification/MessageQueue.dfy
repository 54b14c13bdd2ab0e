/** The two-priority message queue between the io thread and the message thread. The queue of
    boost::interprocess hands out the highest priority first and is FIFO within one priority. */
module MessageQueue {

  const MSG_QUIT: int := 0
  const MSG_USER: int := 128
  const MQFUNC_SIZE: int := 1024
  const MQ_CAPACITY: nat := 1024
  const LOW: nat := 1
  const HIGH: nat := 10

  datatype Entry = Entry(id: int, par1: int, par2: int, priority: nat)

  function Insert(q: seq<Entry>, e: Entry): (r: seq<Entry>)
    ensures |r| == |q| + 1
  {
    if q == [] then [e]
    else if q[0].priority >= e.priority then [q[0]] + Insert(q[1..], e)
    else [e] + q
  }

  predicate Ordered(q: seq<Entry>) {
    forall i, j :: 0 <= i < j < |q| ==> q[i].priority >= q[j].priority
  }

  /** The entries of one priority, in order. */
  function Of(q: seq<Entry>, priority: nat): seq<Entry> {
    if q == [] then []
    else if q[0].priority == priority then [q[0]] + Of(q[1..], priority)
    else Of(q[1..], priority)
  }

  lemma {:induction false} OfAppend(a: seq<Entry>, b: seq<Entry>, priority: nat)
    ensures Of(a + b, priority) == Of(a, priority) + Of(b, priority)
  {
    if a == [] {
      assert a + b == b;
    } else {
      OfAppend(a[1..], b, priority);
      assert (a + b)[1..] == a[1..] + b;
    }
  }

  /** Inserting keeps the order, joins the end of its own priority and leaves the others alone. */
  lemma {:induction false} InsertOrder(q: seq<Entry>, e: Entry)
    requires Ordered(q)
    ensures Ordered(Insert(q, e))
    ensures forall x :: x in Insert(q, e) ==> x in q || x == e
    ensures forall p :: Of(Insert(q, e), p) == if p == e.priority then Of(q, p) + [e] else Of(q, p)
  {
    if q != [] {
      if q[0].priority >= e.priority {
        InsertOrder(q[1..], e);
        var rest := Insert(q[1..], e);
        assert Insert(q, e)[1..] == rest;
        forall j | 0 <= j < |rest| ensures q[0].priority >= rest[j].priority {
          assert rest[j] in rest;
        }
      } else {
        assert ([e] + q)[1..] == q;
        forall p | p == e.priority ensures Of(q, p) == [] { NoneOf(q, p); }
      }
    } else {
      assert [e][1..] == [];
    }
  }

  lemma {:induction false} OfMembers(q: seq<Entry>, p: nat)
    ensures forall x :: x in Of(q, p) ==> x in q && x.priority == p
  {
    if q != [] { OfMembers(q[1..], p); }
  }

  lemma NoneOf(q: seq<Entry>, p: nat)
    requires forall i :: 0 <= i < |q| ==> q[i].priority != p
    ensures Of(q, p) == []
  {
  }

  /* ---------- runs ---------- */

  /** `posted` and `sent` are what the two calls queued, `handled` what the thread took. */
  datatype State = State(queue: seq<Entry>, exited: bool, posted: seq<Entry>, sent: seq<Entry>, handled: seq<Entry>)

  datatype Op = Post(id: int, par1: int, par2: int) | Send(id: int, par1: int, par2: int) | Receive

  const START := State([], false, [], [], [])

  /** A full queue blocks the caller; an empty one blocks the thread. */
  predicate Enabled(s: State, op: Op) {
    if op.Receive? then !s.exited && s.queue != [] else |s.queue| < MQ_CAPACITY
  }

  function Apply(s: State, op: Op): State
    requires Enabled(s, op)
  {
    match op
    case Post(id, p1, p2) =>
      s.(queue := Insert(s.queue, Entry(id, p1, p2, LOW)), posted := s.posted + [Entry(id, p1, p2, LOW)])
    case Send(id, p1, p2) =>
      s.(queue := Insert(s.queue, Entry(id, p1, p2, HIGH)), sent := s.sent + [Entry(id, p1, p2, HIGH)])
    case Receive =>
      s.(queue := s.queue[1..], handled := s.handled + [s.queue[0]], exited := s.queue[0].id == MSG_QUIT)
  }

  predicate Legal(s: State, ops: seq<Op>)
    decreases |ops|
  {
    ops == [] || (Enabled(s, ops[0]) && Legal(Apply(s, ops[0]), ops[1..]))
  }

  function Run(s: State, ops: seq<Op>): State
    requires Legal(s, ops)
    decreases |ops|
  {
    if ops == [] then s else Run(Apply(s, ops[0]), ops[1..])
  }

  predicate QuitOnlyLast(handled: seq<Entry>, exited: bool) {
    && (forall i :: 0 <= i < |handled| && handled[i].id == MSG_QUIT ==> i == |handled| - 1)
    && (exited <==> handled != [] && handled[|handled|-1].id == MSG_QUIT)
  }

  ghost predicate Invariant(s: State) {
    && Ordered(s.queue) && |s.queue| <= MQ_CAPACITY
    && (forall e :: e in s.queue ==> e.priority == LOW || e.priority == HIGH)
    && Of(s.handled, LOW) + Of(s.queue, LOW) == s.posted
    && Of(s.handled, HIGH) + Of(s.queue, HIGH) == s.sent
    && QuitOnlyLast(s.handled, s.exited)
  }

  lemma QueuedKeeps(s: State, op: Op)
    requires Invariant(s) && Enabled(s, op) && !op.Receive?
    ensures Invariant(Apply(s, op))
  {
    InsertOrder(s.queue, Entry(op.id, op.par1, op.par2, if op.Post? then LOW else HIGH));
  }

  lemma ReceiveKeeps(s: State)
    requires Invariant(s) && Enabled(s, Receive)
    ensures Invariant(Apply(s, Receive))
  {
    hide Of, QuitOnlyLast;
    QuitStaysLast(s.handled, s.queue[0], s.exited);
    var first, rest := s.queue[0], s.queue[1..];
    assert first in s.queue && forall e :: e in rest ==> e in s.queue;
    MoveFirst(s.handled, first, rest, LOW);
    MoveFirst(s.handled, first, rest, HIGH);
    assert s.queue == [first] + rest;
  }

  lemma QuitStaysLast(handled: seq<Entry>, first: Entry, exited: bool)
    requires QuitOnlyLast(handled, exited) && !exited
    ensures QuitOnlyLast(handled + [first], first.id == MSG_QUIT)
  {
  }

  lemma MoveFirst(handled: seq<Entry>, first: Entry, rest: seq<Entry>, p: nat)
    ensures Of(handled + [first], p) + Of(rest, p) == Of(handled, p) + Of([first] + rest, p)
  {
    OfAppend(handled, [first], p);
    OfAppend([first], rest, p);
    hide *;
    assert (Of(handled, p) + Of([first], p)) + Of(rest, p) == Of(handled, p) + (Of([first], p) + Of(rest, p));
  }

  lemma {:induction false} RunKeeps(s: State, ops: seq<Op>)
    requires Invariant(s) && Legal(s, ops)
    ensures Invariant(Run(s, ops))
    decreases |ops|
  {
    if ops != [] {
      if ops[0].Receive? { ReceiveKeeps(s); } else { QueuedKeeps(s, ops[0]); }
      RunKeeps(Apply(s, ops[0]), ops[1..]);
    }
  }

  /** In every run: handled posts are a prefix of the posts, handled sends of the sends, each in
      order, and nothing is handled after QUIT. */
  lemma DeliveryInOrder(ops: seq<Op>)
    requires Legal(START, ops)
    ensures var s := Run(START, ops);
            Of(s.handled, LOW) <= s.posted && Of(s.handled, HIGH) <= s.sent
            && s.posted == Of(s.handled, LOW) + Of(s.queue, LOW)
            && s.sent == Of(s.handled, HIGH) + Of(s.queue, HIGH)
            && QuitOnlyLast(s.handled, s.exited)
  {
    RunKeeps(START, ops);
  }

  /** A pending send overtakes every pending post. */
  lemma SendsFirst(s: State)
    requires Invariant(s) && Enabled(s, Receive)
    ensures s.queue[0] == if Of(s.queue, HIGH) != [] then Of(s.queue, HIGH)[0] else Of(s.queue, LOW)[0]
  {
    assert s.queue[0] in s.queue;
    if s.queue[0].priority == LOW {
      assert forall i :: 0 <= i < |s.queue| ==> s.queue[i] in s.queue && s.queue[i].priority <= LOW;
      NoneOf(s.queue, HIGH);
    }
  }

  /* ---------- the object ---------- */

  /** What the thread takes before it stops: everything through the first QUIT. */
  function ThroughQuit(q: seq<Entry>): (r: seq<Entry>)
    ensures r <= q
  {
    if q == [] then [] else if q[0].id == MSG_QUIT then [q[0]] else [q[0]] + ThroughQuit(q[1..])
  }

  lemma {:induction false} ThroughQuitIs(q: seq<Entry>, n: nat)
    requires n <= |q| && forall i :: 0 <= i < n - 1 ==> q[i].id != MSG_QUIT
    requires n == |q| || (n > 0 && q[n-1].id == MSG_QUIT)
    ensures ThroughQuit(q) == q[..n]
  {
    assert forall i :: 0 <= i < |q| - 1 ==> q[1..][i] == q[i + 1];
    if n > 0 && q[0].id != MSG_QUIT {
      ThroughQuitIs(q[1..], n - 1);
      assert q[..n] == [q[0]] + q[1..][..n-1];
    }
  }

  /** The slots registered for a message; ids outside the table have none. */
  function Slots(table: map<int, seq<int>>, id: int): seq<int> {
    if 0 <= id - MSG_USER < MQFUNC_SIZE && id in table then table[id] else []
  }

  datatype Call = Call(slot: int, par1: int, par2: int)

  /** The callbacks a message makes: every slot registered for it, in order. */
  function CallsFor(table: map<int, seq<int>>, e: Entry): seq<Call> {
    var slots := Slots(table, e.id);
    seq(|slots|, i requires 0 <= i < |slots| => Call(slots[i], e.par1, e.par2))
  }

  /** The callbacks made for a list of received messages. */
  function Calls(table: map<int, seq<int>>, q: seq<Entry>): seq<Call> {
    if q == [] then [] else Calls(table, q[..|q|-1]) + CallsFor(table, q[|q|-1])
  }

  lemma OneMoreCall(table: map<int, seq<int>>, q: seq<Entry>, n: nat)
    requires 0 < n <= |q|
    ensures q[..n] == q[..n-1] + [q[n-1]]
    ensures Calls(table, q[..n]) == Calls(table, q[..n-1]) + CallsFor(table, q[n-1])
  {
    assert q[..n][..n-1] == q[..n-1];
  }

  /** The number of slots called for a message, and for the first `k` messages of a list. */
  function SlotCount(table: map<int, seq<int>>, id: int): nat {
    if 128 <= id < 1152 && id in table then |table[id]| else 0
  }

  function CallCount(table: map<int, seq<int>>, q: seq<Entry>, k: nat): nat
    requires k <= |q|
  {
    if k == 0 then 0 else CallCount(table, q, k - 1) + SlotCount(table, q[k-1].id)
  }

  predicate CalledAt(table: map<int, seq<int>>, q: seq<Entry>, calls: seq<Call>, k: nat, i: nat)
    requires k < |q| && i < SlotCount(table, q[k].id)
  {
    var at := CallCount(table, q, k) + i;
    at < |calls| && calls[at] == Call(table[q[k].id][i], q[k].par1, q[k].par2)
  }

  /** `calls` are the callbacks for the messages `q`: each message calls every slot registered for it
      once, in order, with its own parameters, and the messages follow each other as they were taken. */
  predicate CalledBack(table: map<int, seq<int>>, q: seq<Entry>, calls: seq<Call>) {
    && |calls| == CallCount(table, q, |q|)
    && forall k, i :: 0 <= k < |q| && 0 <= i < SlotCount(table, q[k].id) ==> CalledAt(table, q, calls, k, i)
  }

  lemma {:induction false} CallCountPrefix(table: map<int, seq<int>>, q: seq<Entry>, more: seq<Entry>, k: nat)
    requires k <= |q|
    ensures CallCount(table, q + more, k) == CallCount(table, q, k)
  {
    if k > 0 { CallCountPrefix(table, q, more, k - 1); }
  }

  lemma SlotCountIs(table: map<int, seq<int>>, e: Entry)
    ensures var calls := CallsFor(table, e);
            |calls| == SlotCount(table, e.id)
            && forall i :: 0 <= i < |calls| ==> calls[i] == Call(table[e.id][i], e.par1, e.par2)
  {
  }

  lemma LastCount(table: map<int, seq<int>>, init: seq<Entry>, last: Entry)
    ensures var q := init + [last];
            CallCount(table, q, |q|) == CallCount(table, q, |init|) + SlotCount(table, last.id)
  {
  }

  lemma CalledBackAppend(table: map<int, seq<int>>, init: seq<Entry>, last: Entry, calls: seq<Call>)
    requires CalledBack(table, init, calls)
    ensures CalledBack(table, init + [last], calls + CallsFor(table, last))
  {
    hide CallsFor, SlotCount, CallCount;
    var q, n := init + [last], |init|;
    var all := calls + CallsFor(table, last);
    SlotCountIs(table, last);
    forall k | 0 <= k <= n ensures CallCount(table, q, k) == CallCount(table, init, k) {
      CallCountPrefix(table, init, [last], k);
    }
    LastCount(table, init, last);
    forall k, i | 0 <= k < |q| && 0 <= i < SlotCount(table, q[k].id) ensures CalledAt(table, q, all, k, i) {
      if k < n {
        assert q[k] == init[k];
        assert CalledAt(table, init, calls, k, i);
      }
    }
  }

  lemma {:induction false} CallsExactly(table: map<int, seq<int>>, q: seq<Entry>)
    ensures CalledBack(table, q, Calls(table, q))
  {
    if q != [] {
      var init, last := q[..|q|-1], q[|q|-1];
      CallsExactly(table, init);
      CalledBackAppend(table, init, last, Calls(table, init));
      assert q == init + [last];
      hide CalledBack, CallsFor;
    }
  }

  lemma NoCalls(table: map<int, seq<int>>)
    ensures Calls(table, []) == []
  {
  }

  class Queue {
    var live: bool
    var state: State
    var calls: seq<Call>
    var registered: map<int, seq<int>>

    ghost predicate Valid()
      reads this
    {
      Invariant(state)
    }

    constructor ()
      ensures Valid() && !live && state == START && calls == [] && registered == map[]
    {
      live, state, calls, registered := false, START, [], map[];
    }

    method RegisterMessage(id: int, slot: int) returns (ok: bool)
      modifies this`registered
      ensures ok == (0 <= id - MSG_USER < MQFUNC_SIZE)
      ensures registered == if !ok then old(registered)
                            else old(registered[id := if id in registered then registered[id] + [slot] else [slot]])
    {
      ok := 0 <= id - MSG_USER < MQFUNC_SIZE;
      if ok {
        registered := registered[id := if id in registered then registered[id] + [slot] else [slot]];
      }
    }

    /** `creates` says whether the system can create the queue and its thread. */
    method Start(creates: bool) returns (ok: bool)
      requires Valid()
      modifies this`live, this`state, this`calls
      ensures Valid() && ok == live == (old(live) || creates)
      ensures if old(live) || !creates then state == old(state) && calls == old(calls)
              else state == START && calls == []
    {
      if !live && creates { live, state, calls := true, START, []; }
      ok := live;
    }

    method PostMessage(id: int, par1: int, par2: int)
      requires Valid() && (live ==> |state.queue| < MQ_CAPACITY)
      modifies this`state
      ensures Valid() && state == if live then Apply(old(state), Post(id, par1, par2)) else old(state)
      ensures state.posted == if live then old(state).posted + [Entry(id, par1, par2, LOW)] else old(state).posted
      ensures state.sent == old(state).sent
    {
      if live {
        QueuedKeeps(state, Post(id, par1, par2));
        state := state.(queue := Insert(state.queue, Entry(id, par1, par2, LOW)),
                        posted := state.posted + [Entry(id, par1, par2, LOW)]);
      }
    }

    method SendMessage(id: int, par1: int, par2: int)
      requires Valid() && (live ==> |state.queue| < MQ_CAPACITY)
      modifies this`state
      ensures Valid() && state == if live then Apply(old(state), Send(id, par1, par2)) else old(state)
      ensures state.sent == if live then old(state).sent + [Entry(id, par1, par2, HIGH)] else old(state).sent
      ensures state.posted == old(state).posted
    {
      if live {
        QueuedKeeps(state, Send(id, par1, par2));
        state := state.(queue := Insert(state.queue, Entry(id, par1, par2, HIGH)),
                        sent := state.sent + [Entry(id, par1, par2, HIGH)]);
      }
    }

    method ReceiveOne() returns (msg: Entry)
      requires Valid() && Enabled(state, Receive)
      modifies this`state, this`calls
      ensures Valid() && msg == old(state).queue[0] && state == Apply(old(state), Receive)
      ensures calls == old(calls) + CallsFor(registered, msg)
      ensures if 0 <= msg.id - MSG_USER < MQFUNC_SIZE && msg.id in registered
              then |calls| == |old(calls)| + |registered[msg.id]| && old(calls) <= calls
                   && forall i :: 0 <= i < |registered[msg.id]| ==>
                        calls[|old(calls)| + i] == Call(registered[msg.id][i], msg.par1, msg.par2)
              else calls == old(calls)
    {
      ReceiveKeeps(state);
      hide Invariant;
      msg := state.queue[0];
      state := state.(queue := state.queue[1..], handled := state.handled + [msg], exited := msg.id == MSG_QUIT);
      calls := calls + CallsFor(registered, msg);
    }

    /** The receive loop, up to the QUIT or the point where it would block. */
    method ThreadMessage()
      requires Valid() && !state.exited
      modifies this`state, this`calls
      ensures Valid()
      ensures var taken := ThroughQuit(old(state).queue);
              state.handled == old(state).handled + taken
              && state.queue == old(state).queue[|taken|..]
              && calls == old(calls) + Calls(registered, taken)
              && CalledBack(registered, taken, calls[|old(calls)|..])
      ensures state.posted == old(state).posted && state.sent == old(state).sent
    {
      hide Invariant, Calls, CallsFor, CalledBack;
      ghost var q, n := state.queue, 0;
      NoCalls(registered);
      assert q[..0] == [];
      while !state.exited && state.queue != []
        invariant Valid() && state.posted == old(state).posted && state.sent == old(state).sent
        invariant n <= |q| && state.queue == q[n..]
        invariant state.handled == old(state).handled + q[..n] && calls == old(calls) + Calls(registered, q[..n])
        invariant state.exited <==> n > 0 && q[n-1].id == MSG_QUIT
        invariant forall i :: 0 <= i < n - 1 ==> q[i].id != MSG_QUIT
        decreases |state.queue|
      {
        var msg := ReceiveOne();
        n := n + 1;
        OneMoreCall(registered, q, n);
      }
      ThroughQuitIs(q, n);
      CallsExactly(registered, q[..n]);
    }

    /** Stop queues QUIT ahead of the posts, waits for the thread and drops the queue. */
    method Stop()
      requires Valid() && (live ==> !state.exited && |state.queue| < MQ_CAPACITY)
      requires live ==> forall e :: e in Of(state.queue, HIGH) ==> e.id != MSG_QUIT
      modifies this`live, this`state, this`calls
      ensures Valid() && !live
      ensures old(live) ==>
                var taken := Of(old(state).queue, HIGH) + [Entry(MSG_QUIT, 0, 0, HIGH)];
                state.handled == old(state).handled + taken && calls == old(calls) + Calls(registered, taken)
                && CalledBack(registered, taken, calls[|old(calls)|..])
    {
      hide Calls, CalledBack, CallsFor;
      if live {
        ghost var q := state.queue;
        SendMessage(MSG_QUIT, 0, 0);
        QuitBeforePosts(q);
        ThreadMessage();
        live := false;
      }
    }
  }

  lemma {:induction false} QuitBeforePosts(q: seq<Entry>)
    requires Ordered(q) && forall e :: e in q ==> e.priority == LOW || e.priority == HIGH
    requires forall e :: e in Of(q, HIGH) ==> e.id != MSG_QUIT
    ensures var quit := Entry(MSG_QUIT, 0, 0, HIGH);
            ThroughQuit(Insert(q, quit)) == Of(q, HIGH) + [quit]
  {
    var quit := Entry(MSG_QUIT, 0, 0, HIGH);
    if q != [] {
      assert q[0] in q;
      if q[0].priority == HIGH {
        assert q[0] in Of(q, HIGH);
        assert forall e :: e in q[1..] ==> e in q;
        assert forall e :: e in Of(q[1..], HIGH) ==> e in Of(q, HIGH);
        QuitBeforePosts(q[1..]);
        assert Insert(q, quit)[1..] == Insert(q[1..], quit);
        assert [q[0]] + (Of(q[1..], HIGH) + [quit]) == Of(q, HIGH) + [quit];
      } else {
        assert forall i :: 0 <= i < |q| ==> q[i] in q && q[i].priority <= LOW;
        NoneOf(q, HIGH);
      }
    }
  }
}
