/** The whole system: the invariant of every reachable state, and what follows from it. */
module TransferTheorems {
  import opened Text
  import opened AsciiProtocol
  import opened TcpClient
  import opened FileTransfer
  import opened TransferSystem
  import opened TransferSafety

  /* ---------- references to buffers ---------- */

  lemma {:induction false} CountsOwner(sessions: seq<Session>, sid: nat, id: nat)
    requires sid < |sessions| && sessions[sid].rcv.file == Some(id)
    ensures CountSessions(sessions, id) >= 1
  {
    if sid > 0 { CountsOwner(sessions[1..], sid - 1, id); }
  }

  lemma {:induction false} CountsQueued(queue: seq<nat>, id: nat)
    ensures CountQueue(queue, id) == 0 <==> id !in queue
  {
    if queue != [] { CountsQueued(queue[1..], id); }
  }

  /** Neither the writer's queue nor save_first refers to the buffer. */
  predicate Unshared(w: Writer, id: nat) {
    id !in w.queue && !Held(w, id)
  }

  /** use_count() == 1 in the session that holds the buffer means that the writer does not. */
  lemma SoleOwner(sys: System, sid: nat)
    requires sid < |sys.sessions| && sys.sessions[sid].rcv.file.Some?
    ensures UseCountOf(sys, sys.sessions[sid].rcv) == 1 ==> Unshared(sys.writer, sys.sessions[sid].rcv.file.value)
  {
    var id := sys.sessions[sid].rcv.file.value;
    CountsOwner(sys.sessions, sid, id);
    CountsQueued(sys.writer.queue, id);
  }

  /* ---------- the invariant ---------- */

  ghost predicate AllSessions(sessions: seq<Session>, heap: seq<Buffer>) {
    forall sid :: 0 <= sid < |sessions| ==> SessionInv(sessions[sid], heap)
  }

  predicate OwnBuffers(sessions: seq<Session>) {
    forall i, j :: 0 <= i < j < |sessions| && sessions[i].rcv.file.Some? ==>
      sessions[i].rcv.file != sessions[j].rcv.file
  }

  /** A buffer being filled belongs to its session alone. */
  predicate FillingIsPrivate(sessions: seq<Session>, w: Writer) {
    forall sid :: 0 <= sid < |sessions| && Fills(PhaseOf(sessions[sid])) && sessions[sid].rcv.file.Some? ==>
      Unshared(w, sessions[sid].rcv.file.value)
  }

  /** The queue entries not yet written. */
  function Pending(w: Writer): seq<nat> {
    if w.stage.Written? && w.queue != [] then w.queue[1..] else w.queue
  }

  predicate WriterFits(w: Writer, heapSize: nat) {
    && (forall i :: 0 <= i < |w.queue| ==> w.queue[i] < heapSize)
    && (w.stage.Holding? || w.stage.Written? ==> w.queue != [] && w.queue[0] == w.stage.id)
    && (!w.stage.Free? ==> w.stage.id < heapSize)
  }

  /** Everything taken is on disk or still in the queue, in order and each once, with the bytes it had
      when it was handed over. */
  predicate Conserved(w: Writer, heap: seq<Buffer>)
    requires WriterFits(w, |heap|)
  {
    && |w.disk| + |Pending(w)| == |w.log|
    && (forall k :: 0 <= k < |w.disk| ==> w.disk[k] == Plain(w.log[k].file))
    && (forall k :: 0 <= k < |Pending(w)| ==> Plain(Content(heap[Pending(w)[k]])) == Plain(w.log[|w.disk| + k].file))
  }

  /** The files of one session in a log. */
  function OfSession(log: seq<Delivery>, sid: nat): seq<File> {
    if log == [] then []
    else
      var init, last := OfSession(log[..|log|-1], sid), log[|log|-1];
      if last.sid == sid then init + [last.file] else init
  }

  /** The files whose flag is set. */
  function Select(files: seq<File>, flags: seq<bool>): seq<File> {
    if files == [] || |flags| != |files| then []
    else
      var n := |files| - 1;
      Select(files[..n], flags[..n]) + if flags[n] then [files[n]] else []
  }

  predicate LogFits(sessions: seq<Session>, log: seq<Delivery>) {
    && (forall sid :: 0 <= sid < |sessions| ==>
          |sessions[sid].rcv.taken| == |sessions[sid].rcv.handed|
          && OfSession(log, sid) == Select(sessions[sid].rcv.handed, sessions[sid].rcv.taken))
    && (forall k :: 0 <= k < |log| ==> log[k].sid < |sessions|)
  }

  ghost predicate SystemInv(sys: System) {
    && AllWellFormed(sys.heap)
    && AllSessions(sys.sessions, sys.heap)
    && OwnBuffers(sys.sessions)
    && FillingIsPrivate(sys.sessions, sys.writer)
    && WriterFits(sys.writer, |sys.heap|)
    && Conserved(sys.writer, sys.heap)
    && LogFits(sys.sessions, sys.writer.log)
  }

  lemma StartSessionInv(files: seq<File>)
    requires GoodFiles(files)
    ensures SessionInv(StartSession(files), [])
  {
    hide GoodFiles, StatusOf, IsHeader, Holds, Continues;
    assert files[..0] == [];
  }

  lemma StartInv(clients: seq<seq<File>>)
    requires forall i :: 0 <= i < |clients| ==> GoodFiles(clients[i])
    ensures SystemInv(Start(clients))
  {
    hide GoodFiles, SessionInv;
    var sys := Start(clients);
    forall sid | 0 <= sid < |sys.sessions| ensures SessionInv(sys.sessions[sid], sys.heap) {
      assert sys.sessions[sid] == StartSession(clients[sid]);
      StartSessionInv(clients[sid]);
    }
    hide PhaseOf;
    assert forall sid :: 0 <= sid < |sys.sessions| ==> sys.sessions[sid].rcv.file.None?;
    assert Select([], []) == [] && forall sid :: OfSession([], sid) == [];
  }

  /* ---------- a session's step ---------- */

  /** What every session step gives the rest of the system. */
  ghost predicate SteppedBy(sys: System, sid: nat, o: Effect, ph: Phase, ph': Phase) {
    && sid < |sys.sessions| && PhaseOf(sys.sessions[sid]) == ph
    && InvAt(ph', o.s, o.heap) && PhaseOf(o.s) == ph'
  }

  /** The buffers of other sessions are as they were. */
  lemma OthersKeep(sys: System, sid: nat, o: Effect)
    requires SystemInv(sys) && sid < |sys.sessions| && SessionInv(o.s, o.heap) && |sys.heap| <= |o.heap|
    requires forall id :: 0 <= id < |sys.heap| && Some(id) != sys.sessions[sid].rcv.file ==> o.heap[id] == sys.heap[id]
    ensures AllSessions(sys.sessions[sid := o.s], o.heap)
  {
    hide InvAt;
    forall j | 0 <= j < |sys.sessions| && j != sid ensures SessionInv(sys.sessions[j], o.heap) {
      var t := sys.sessions[j];
      OwnFile(sys, j);
      assert t.rcv.file.Some? ==> t.rcv.file != sys.sessions[sid].rcv.file by {
        if j < sid { assert t.rcv.file.Some? ==> t.rcv.file != sys.sessions[sid].rcv.file; }
      }
      Frame(PhaseOf(t), t, sys.heap, o.heap);
    }
  }

  lemma OwnFile(sys: System, sid: nat)
    requires AllSessions(sys.sessions, sys.heap) && sid < |sys.sessions|
    ensures sys.sessions[sid].rcv.file.Some? ==> sys.sessions[sid].rcv.file.value < |sys.heap|
  {
    hide IsHeader, Holds, Continues, GoodFiles, HandedFits, CloseIsLast, PhaseHolds, ClientFits, QueueFits, PhaseOf,
      Blocks;
    assert SessionInv(sys.sessions[sid], sys.heap);
  }

  /** Contents of queued buffers do not change. */
  lemma ConservedStays(w: Writer, heap: seq<Buffer>, heap': seq<Buffer>)
    requires WriterFits(w, |heap|) && Conserved(w, heap) && |heap| <= |heap'|
    requires forall i :: 0 <= i < |w.queue| ==> heap'[w.queue[i]] == heap[w.queue[i]]
    ensures WriterFits(w, |heap'|) && Conserved(w, heap')
  {
    assert forall k :: 0 <= k < |Pending(w)| ==> Pending(w)[k] in w.queue;
  }

  lemma SameLog(sys: System, sid: nat, t: Session)
    requires LogFits(sys.sessions, sys.writer.log) && sid < |sys.sessions| && SameHistory(sys.sessions[sid], t)
    ensures LogFits(sys.sessions[sid := t], sys.writer.log)
  {
    hide OfSession, Select;
  }

  lemma UntouchedKeeps(sys: System, sid: nat, o: Effect, ph: Phase, ph': Phase)
    requires SystemInv(sys) && SteppedBy(sys, sid, o, ph, ph')
    requires Untouched(sys.sessions[sid], sys.heap, o) && (Fills(ph') ==> Fills(ph))
    ensures SystemInv(System(sys.sessions[sid := o.s], o.heap, sys.writer))
  {
    hide InvAt, PhaseOf, Conserved, LogFits, Unshared, Fills;
    assert SessionInv(o.s, o.heap);
    OthersKeep(sys, sid, o);
    SameLog(sys, sid, o.s);
  }

  lemma RewritesKeeps(sys: System, sid: nat, o: Effect, ph: Phase, ph': Phase)
    requires SystemInv(sys) && SteppedBy(sys, sid, o, ph, ph')
    requires Rewrites(sys.sessions[sid], sys.heap, o)
    requires Unshared(sys.writer, sys.sessions[sid].rcv.file.value)
    ensures SystemInv(System(sys.sessions[sid := o.s], o.heap, sys.writer))
  {
    hide InvAt, PhaseOf, Conserved, LogFits, Fills, WellFormed;
    assert SessionInv(o.s, o.heap);
    OthersKeep(sys, sid, o);
    SameLog(sys, sid, o.s);
    ConservedStays(sys.writer, sys.heap, o.heap);
  }

  lemma AllocatesKeeps(sys: System, sid: nat, o: Effect, ph: Phase, ph': Phase)
    requires SystemInv(sys) && SteppedBy(sys, sid, o, ph, ph')
    requires Allocates(sys.sessions[sid], sys.heap, o)
    ensures SystemInv(System(sys.sessions[sid := o.s], o.heap, sys.writer))
  {
    hide InvAt, PhaseOf, Conserved, LogFits, Fills, WellFormed;
    assert SessionInv(o.s, o.heap);
    assert forall id :: 0 <= id < |sys.heap| ==> o.heap[id] == o.heap[..|sys.heap|][id];
    OthersKeep(sys, sid, o);
    SameLog(sys, sid, o.s);
    ConservedStays(sys.writer, sys.heap, o.heap);
    var sessions := sys.sessions[sid := o.s];
    forall j | 0 <= j < |sessions| && j != sid ensures sessions[j].rcv.file != o.s.rcv.file { OwnFile(sys, j); }
    assert Unshared(sys.writer, |sys.heap|);
  }

  lemma SelectAppend(files: seq<File>, flags: seq<bool>, f: File, b: bool)
    requires |flags| == |files|
    ensures Select(files + [f], flags + [b]) == Select(files, flags) + if b then [f] else []
  {
    assert (files + [f])[..|files|] == files && (flags + [b])[..|flags|] == flags;
  }

  lemma LogGrows(sys: System, sid: nat, t: Session, f: File)
    requires LogFits(sys.sessions, sys.writer.log) && sid < |sys.sessions|
    requires t.rcv.handed == sys.sessions[sid].rcv.handed + [f]
    requires t.rcv.taken == sys.sessions[sid].rcv.taken + [sys.writer.running]
    ensures LogFits(sys.sessions[sid := t],
                    if sys.writer.running then sys.writer.log + [Delivery(sid, f)] else sys.writer.log)
  {
    var r := sys.sessions[sid].rcv;
    var log' := sys.writer.log + [Delivery(sid, f)];
    assert log'[..|sys.writer.log|] == sys.writer.log;
    SelectAppend(r.handed, r.taken, f, sys.writer.running);
    forall j | 0 <= j < |sys.sessions|
      ensures OfSession(log', j) == OfSession(sys.writer.log, j) + if j == sid then [f] else []
    {
    }
    hide OfSession, Select;
    assert OfSession(sys.writer.log, sid) == Select(r.handed, r.taken);
  }

  lemma QueueGrows(w: Writer, heap: seq<Buffer>, id: nat, d: Delivery)
    requires WriterFits(w, |heap|) && Conserved(w, heap) && id < |heap| && Content(heap[id]) == d.file
    ensures var w' := w.(queue := w.queue + [id], log := w.log + [d]); WriterFits(w', |heap|) && Conserved(w', heap)
  {
    hide Plain, Content;
    var w' := w.(queue := w.queue + [id], log := w.log + [d]);
    assert Pending(w') == Pending(w) + [id];
  }

  lemma StoresKeeps(sys: System, sid: nat, o: Effect, ph: Phase, ph': Phase)
    requires SystemInv(sys) && SteppedBy(sys, sid, o, ph, ph')
    requires sys.sessions[sid].client.done < |sys.sessions[sid].client.files|
    requires Stores(sys.sessions[sid], sys.heap, sys.writer.running, o) && Fills(ph) && !Fills(ph')
    ensures SystemInv(System(sys.sessions[sid := o.s], o.heap, NewFile(sys.writer, sid, o.stored, LastHanded(o.s.rcv))))
  {
    hide InvAt, PhaseOf, Conserved, LogFits, Fills, WellFormed, Content;
    var s, f := sys.sessions[sid], Current(sys.sessions[sid]);
    var id := s.rcv.file.value;
    assert SessionInv(o.s, o.heap);
    assert LastHanded(o.s.rcv) == Some(f);
    OthersKeep(sys, sid, o);
    LogGrows(sys, sid, o.s, f);
    if sys.writer.running {
      QueueGrows(sys.writer, sys.heap, id, Delivery(sid, f));
      var sessions := sys.sessions[sid := o.s];
      forall j | 0 <= j < |sessions| && Fills(PhaseOf(sessions[j])) && sessions[j].rcv.file.Some?
        ensures sessions[j].rcv.file.value != id {
        assert j != sid;
      }
    }
  }

  lemma SessionEventKeeps(sys: System, sid: nat, e: SEvent)
    requires SystemInv(sys) && SysEnabled(sys, OnSession(sid, e))
    ensures SystemInv(SysStep(sys, OnSession(sid, e)))
  {
    hide InvAt, PhaseOf, Conserved, LogFits, Fills, WellFormed, Content, Untouched, Rewrites, Allocates, Stores,
      Step, Enabled, OwnBuffers, WriterFits, SessionInv;
    var s := sys.sessions[sid];
    var ph, n, running := PhaseOf(s), UseCountOf(sys, s.rcv), sys.writer.running;
    var o := Step(s, sys.heap, n, running, e);
    assert InvAt(ph, s, sys.heap) by { OwnInv(sys, sid); }
    SessionStep(ph, s, sys.heap, n, running, e);
    var ph' := NextPhase(ph, s, o.heap, e);
    PhaseIs(ph', o.s, o.heap);
    assert SteppedBy(sys, sid, o, ph, ph');
    hide NextPhase;
    NotStored(s, sys.heap, o);
    if Untouched(s, sys.heap, o) && (Fills(ph') ==> Fills(ph)) {
      UntouchedKeeps(sys, sid, o, ph, ph');
    } else if Rewrites(s, sys.heap, o) && (Fills(ph) || n == 1) {
      RewritesHasFile(s, sys.heap, o);
      SoleOwner(sys, sid);
      RewritesKeeps(sys, sid, o, ph, ph');
    } else if Allocates(s, sys.heap, o) {
      AllocatesKeeps(sys, sid, o, ph, ph');
    } else {
      StoresKeeps(sys, sid, o, ph, ph');
    }
  }

  lemma OwnInv(sys: System, sid: nat)
    requires AllSessions(sys.sessions, sys.heap) && sid < |sys.sessions|
    ensures InvAt(PhaseOf(sys.sessions[sid]), sys.sessions[sid], sys.heap)
  {
    hide InvAt, PhaseOf;
    assert SessionInv(sys.sessions[sid], sys.heap);
  }

  lemma RewritesHasFile(s: Session, heap: seq<Buffer>, o: Effect)
    requires Rewrites(s, heap, o)
    ensures s.rcv.file.Some?
  {
  }

  lemma NotStored(s: Session, heap: seq<Buffer>, o: Effect)
    ensures Untouched(s, heap, o) || Rewrites(s, heap, o) || Allocates(s, heap, o) ==> o.stored == None
  {
  }

  /* ---------- a writer's step ---------- */

  lemma WriterEventKeeps(sys: System, e: WEvent)
    requires SystemInv(sys) && WEnabled(sys, e)
    ensures SystemInv(WStep(sys, e))
  {
    hide AllSessions, LogFits, OfSession, Select;
    var w, sys' := sys.writer, WStep(sys, e);
    if e.TakeFront? {
      PathOnly(sys, e.path);
    } else {
      WriterConserves(sys, e);
    }
  }

  lemma WriterConserves(sys: System, e: WEvent)
    requires SystemInv(sys) && WEnabled(sys, e) && !e.TakeFront?
    ensures SystemInv(WStep(sys, e))
  {
    hide AllSessions, LogFits, OfSession, Select, PhaseOf, AllWellFormed, OwnBuffers, Fills, Conserved, WriterFits;
    var w, w' := sys.writer, WStep(sys, e).writer;
    WriterQueue(sys, e);
    assert forall id :: id !in w.queue && !Held(w, id) ==> id !in w'.queue && !Held(w', id) by {
      NewlyHeld(sys, e);
    }
  }

  lemma NewlyHeld(sys: System, e: WEvent)
    requires WriterFits(sys.writer, |sys.heap|) && WEnabled(sys, e) && !e.TakeFront?
    ensures var w, w' := sys.writer, WStep(sys, e).writer;
            (forall id :: Held(w', id) ==> Held(w, id)) && (forall id :: id in w'.queue ==> id in w.queue)
  {
    hide Plain, Content;
  }

  /** Writing and popping the front: what is popped is what was written. */
  lemma WriterQueue(sys: System, e: WEvent)
    requires WriterFits(sys.writer, |sys.heap|) && Conserved(sys.writer, sys.heap) && WEnabled(sys, e) && !e.TakeFront?
    ensures var w' := WStep(sys, e).writer; WriterFits(w', |sys.heap|) && Conserved(w', sys.heap)
  {
    hide Plain, Content;
    if e.WriteFile? {
      WriteFront(sys);
    } else if e.PopFront? {
      var w, w' := sys.writer, WStep(sys, e).writer;
      assert Pending(w') == Pending(w);
    }
  }

  lemma WriteFront(sys: System)
    requires WriterFits(sys.writer, |sys.heap|) && Conserved(sys.writer, sys.heap) && WEnabled(sys, WriteFile)
    ensures var w' := WStep(sys, WriteFile).writer; WriterFits(w', |sys.heap|) && Conserved(w', sys.heap)
  {
    hide Plain, Content;
    var w, w' := sys.writer, WStep(sys, WriteFile).writer;
    assert Pending(w) == w.queue && Pending(w') == w.queue[1..];
    assert w.queue[0] == w.stage.id && Plain(Content(sys.heap[w.queue[0]])) == Plain(w.log[|w.disk|].file);
    forall k | 0 <= k < |Pending(w')|
      ensures Plain(Content(sys.heap[Pending(w')[k]])) == Plain(w'.log[|w'.disk| + k].file) {
      assert Pending(w')[k] == Pending(w)[k + 1];
    }
  }

  /** save_first overwrites the path of the front buffer and nothing else. */
  lemma PathOnly(sys: System, path: string)
    requires SystemInv(sys) && WEnabled(sys, TakeFront(path))
    ensures SystemInv(WStep(sys, TakeFront(path)))
  {
    hide LogFits, SessionInv, PhaseOf, Plain, Content;
    var heap' := WStep(sys, TakeFront(path)).heap;
    PathIsNotContent(sys.heap, sys.writer.queue[0], path);
    forall sid | 0 <= sid < |sys.sessions| ensures SessionInv(sys.sessions[sid], heap') {
      PathKeepsSession(sys, path, sid);
    }
  }

  lemma PathIsNotContent(heap: seq<Buffer>, id: nat, path: string)
    requires id < |heap|
    ensures var heap' := heap[id := heap[id].(head := heap[id].head.(subpath := path))];
            forall k :: 0 <= k < |heap| ==> Plain(Content(heap'[k])) == Plain(Content(heap[k]))
  {
  }

  lemma PathKeepsSession(sys: System, path: string, sid: nat)
    requires SystemInv(sys) && WEnabled(sys, TakeFront(path)) && sid < |sys.sessions|
    ensures SessionInv(sys.sessions[sid], WStep(sys, TakeFront(path)).heap)
  {
    hide LogFits, Plain, Content, InvAt, PhaseOf;
    var heap' := WStep(sys, TakeFront(path)).heap;
    OwnInv(sys, sid);
    var s := sys.sessions[sid];
    var ph := PhaseOf(s);
    if Fills(ph) { OwnFile(sys, sid); Frame(ph, s, sys.heap, heap'); } else { FrameQuiet(ph, s, sys.heap, heap'); }
  }

  /* ---------- every run ---------- */

  lemma EventKeeps(sys: System, ev: Event)
    requires SystemInv(sys) && SysEnabled(sys, ev)
    ensures SystemInv(SysStep(sys, ev))
  {
    hide SystemInv, Step, WStep, Enabled, WEnabled;
    match ev
    case OnSession(sid, e) => SessionEventKeeps(sys, sid, e);
    case OnWriter(w) => WriterEventKeeps(sys, w);
  }

  lemma {:induction false} RunKeeps(sys: System, es: seq<Event>)
    requires SystemInv(sys) && Run(sys, es).Some?
    ensures SystemInv(Run(sys, es).value)
  {
    hide SystemInv, SysStep, SysEnabled;
    if es != [] {
      var init := es[..|es|-1];
      RunKeeps(sys, init);
      EventKeeps(Run(sys, init).value, es[|es|-1]);
    }
  }

  lemma StepKeepsFiles(s: Session, heap: seq<Buffer>, useCount: nat, running: bool, e: SEvent)
    requires Enabled(s, e)
    ensures Step(s, heap, useCount, running, e).s.client.files == s.client.files
  {
    hide ReadHeader, StatusOf, StatusLine, HeaderLine, FreshFits, Sendable, DataArrive, HasRoom, PrepareBuffer,
      Reuses, Verdict;
  }

  ghost predicate Offers(sys: System, clients: seq<seq<File>>) {
    |sys.sessions| == |clients| && forall i :: 0 <= i < |clients| ==> sys.sessions[i].client.files == clients[i]
  }

  lemma EventKeepsFiles(sys: System, ev: Event, clients: seq<seq<File>>)
    requires SysEnabled(sys, ev) && Offers(sys, clients)
    ensures Offers(SysStep(sys, ev), clients)
  {
    hide Step, WEnabled, Enabled;
    if ev.OnSession? {
      var s := sys.sessions[ev.sid];
      StepKeepsFiles(s, sys.heap, UseCountOf(sys, s.rcv), sys.writer.running, ev.e);
    }
  }

  lemma {:induction false} RunKeepsFiles(sys: System, es: seq<Event>, clients: seq<seq<File>>)
    requires Offers(sys, clients) && Run(sys, es).Some?
    ensures Offers(Run(sys, es).value, clients)
  {
    hide SysStep, SysEnabled, Offers;
    if es != [] {
      var init := es[..|es|-1];
      RunKeepsFiles(sys, init, clients);
      EventKeepsFiles(Run(sys, init).value, es[|es|-1], clients);
    }
  }

  ghost predicate GoodClients(clients: seq<seq<File>>) {
    forall i :: 0 <= i < |clients| ==> GoodFiles(clients[i])
  }

  /** A reachable state of the system serving `clients`. */
  ghost predicate Reachable(clients: seq<seq<File>>, es: seq<Event>, sys: System) {
    GoodClients(clients) && Run(Start(clients), es) == Some(sys)
  }

  lemma ReachableInv(clients: seq<seq<File>>, es: seq<Event>, sys: System)
    requires Reachable(clients, es, sys)
    ensures SystemInv(sys) && Offers(sys, clients)
  {
    hide SystemInv, GoodFiles, Run;
    StartInv(clients);
    RunKeeps(Start(clients), es);
    RunKeepsFiles(Start(clients), es, clients);
  }

  lemma {:induction false} SelectAll(files: seq<File>, flags: seq<bool>)
    requires |flags| == |files| && forall i :: 0 <= i < |flags| ==> flags[i]
    ensures Select(files, flags) == files
  {
    if files != [] {
      SelectAll(files[..|files|-1], flags[..|files|-1]);
      assert files == files[..|files|-1] + [files[|files|-1]];
    }
  }

  lemma {:induction false} OfSessionPrefix(log: seq<Delivery>, k: nat, sid: nat)
    requires k <= |log|
    ensures OfSession(log[..k], sid) <= OfSession(log, sid)
  {
    if k < |log| {
      OfSessionPrefix(log[..|log|-1], k, sid);
      assert log[..|log|-1][..k] == log[..k];
    } else {
      assert log[..k] == log;
    }
  }

  lemma SessionFacts(ph: Phase, s: Session, heap: seq<Buffer>)
    requires InvAt(ph, s, heap)
    ensures s.rcv.handed <= s.client.files && |s.rcv.taken| == |s.rcv.handed| && !s.rcv.fault
    ensures s.client.done <= |s.rcv.handed| <= s.client.done + 1
    ensures s.rcv.state != Failure && s.rcv.handler != Stored(Failure) && s.rcv.handler != Marked(Failure)
    ensures |s.rcv.queue| <= 2 && CloseIsLast(s.rcv.posted, s.net.closed)
    ensures !s.rcv.linked ==> s.rcv.queue == [] && s.rcv.handler.Idle? && s.net.closed && s.net.up == []
  {
    hide IsHeader, Holds, Continues, GoodFiles, CloseIsLast, StatusOf, Blocks;
  }

  /** End to end, in every reachable state, for every number of clients, chunking, interleaving and
      break: what a receiver handed to the writer is a prefix of what its client offers; what the
      writer took of it is that prefix less the files it refused; and the disk holds, in order and
      byte for byte, the first files taken. Every status 2 a client has read is a file handed over, and
      at most one more is. No step faults and no FAILURE occurs. */
  lemma EndToEndSafety(clients: seq<seq<File>>, es: seq<Event>, sys: System, sid: nat)
    requires Reachable(clients, es, sys) && sid < |clients|
    ensures |sys.sessions| == |clients|
    ensures var r, w := sys.sessions[sid].rcv, sys.writer;
            r.handed <= clients[sid] && !r.fault && r.state != Failure
            && sys.sessions[sid].client.done <= |r.handed| <= sys.sessions[sid].client.done + 1
            && OfSession(w.log, sid) == Select(r.handed, r.taken)
            && |w.disk| <= |w.log| && (forall k :: 0 <= k < |w.disk| ==> w.disk[k] == Plain(w.log[k].file))
            && OfSession(w.log[..|w.disk|], sid) <= OfSession(w.log, sid)
            && ((forall i :: 0 <= i < |r.taken| ==> r.taken[i]) ==> OfSession(w.log, sid) == r.handed)
  {
    hide Reachable, PhaseOf, InvAt, AllWellFormed, OwnBuffers, FillingIsPrivate, Select, OfSession, Plain, Content;
    ReachableInv(clients, es, sys);
    OwnInv(sys, sid);
    var r, w := sys.sessions[sid].rcv, sys.writer;
    SessionFacts(PhaseOf(sys.sessions[sid]), sys.sessions[sid], sys.heap);
    OfSessionPrefix(w.log, |w.disk|, sid);
    if forall i :: 0 <= i < |r.taken| ==> r.taken[i] { SelectAll(r.handed, r.taken); }
  }

  /** Ownership: no step of any session changes a buffer that is queued or held by save_first. */
  lemma QueuedBuffersStay(sys: System, sid: nat, e: SEvent, id: nat)
    requires SystemInv(sys) && SysEnabled(sys, OnSession(sid, e))
    requires id < |sys.heap| && !Unshared(sys.writer, id)
    ensures var heap' := SysStep(sys, OnSession(sid, e)).heap; id < |heap'| && heap'[id] == sys.heap[id]
  {
    hide InvAt, PhaseOf, Conserved, LogFits, Fills, WellFormed, Content, Step, Enabled, OwnBuffers, WriterFits,
      Unshared;
    var s := sys.sessions[sid];
    var ph, n := PhaseOf(s), UseCountOf(sys, s.rcv);
    var o := Step(s, sys.heap, n, sys.writer.running, e);
    OwnInv(sys, sid);
    SessionStep(ph, s, sys.heap, n, sys.writer.running, e);
    if Rewrites(s, sys.heap, o) {
      SoleOwner(sys, sid);
    } else if Allocates(s, sys.heap, o) {
      assert o.heap[..|sys.heap|][id] == o.heap[id];
    }
  }

  /** Ownership: when a block is about to be stored, its bytes fit, and the buffer is in no queue, not
      held by save_first and not another session's. */
  lemma DataArrivesPrivately(sys: System, sid: nat)
    requires SystemInv(sys) && SysEnabled(sys, OnSession(sid, Deliver)) && sys.sessions[sid].rcv.state == Ready
    ensures var s := sys.sessions[sid];
            s.rcv.linked && Validates(s.rcv, sys.heap) && HasRoom(sys.heap[s.rcv.file.value], s.net.up[0])
            && Unshared(sys.writer, s.rcv.file.value)
            && forall j :: 0 <= j < |sys.sessions| && j != sid ==> sys.sessions[j].rcv.file != s.rcv.file
  {
    hide PhaseOf, Conserved, LogFits, WellFormed, Content, Unshared, InvAt, HasRoom, DataArrive;
    var s := sys.sessions[sid];
    OwnInv(sys, sid);
    ReadyIsStreaming(PhaseOf(s), s, sys.heap);
    DeliverStreaming(s, sys.heap);
    StreamingLinked(s, sys.heap);
  }

  lemma StreamingLinked(s: Session, heap: seq<Buffer>)
    requires s.net.up != []
    requires InvAt(Streaming, s, heap) && Enabled(s, Deliver)
    ensures s.rcv.linked
  {
    hide IsHeader, Holds, Continues, GoodFiles, CloseIsLast, StatusOf, HandedFits, Blocks;
  }

  lemma ReadyIsStreaming(ph: Phase, s: Session, heap: seq<Buffer>)
    requires InvAt(ph, s, heap) && s.net.up != [] && s.rcv.state == Ready
    ensures ph == Streaming
  {
    hide IsHeader, Holds, Continues, GoodFiles, CloseIsLast, StatusOf, HandedFits;
  }

  /** A header either keeps a buffer of the right size that nobody else refers to, or allocates. */
  lemma ReuseIsSafe(sys: System, sid: nat, memory: seq<char>)
    requires SystemInv(sys) && SysEnabled(sys, OnSession(sid, Dequeue(memory)))
    requires !sys.sessions[sid].rcv.stopping && sys.sessions[sid].rcv.queue[0] == NetworkReceive
    ensures var s, sys' := sys.sessions[sid], SysStep(sys, OnSession(sid, Dequeue(memory)));
            s.client.done < |s.client.files|
            && (var file := sys'.sessions[sid].rcv.file;
                Holds(sys'.heap, file, Current(s), 0) && Unshared(sys'.writer, file.value)
                && if Validates(s.rcv, sys.heap) && UseCountOf(sys, s.rcv) == 1
                      && sys.heap[s.rcv.file.value].filesize == |Current(s).data|
                   then file == s.rcv.file else file == Some(|sys.heap|))
  {
    hide PhaseOf, Conserved, LogFits, WellFormed, Content, Unshared, InvAt, Holds, OnDequeue, FreshFits;
    var s := sys.sessions[sid];
    OwnInv(sys, sid);
    HeadIsHeader(PhaseOf(s), s, sys.heap);
    DequeueHeader(s, sys.heap, UseCountOf(sys, s.rcv), sys.writer.running, memory);
    var o := OnDequeue(s, sys.heap, UseCountOf(sys, s.rcv), sys.writer.running, memory);
    PreparedHolds(o.s, o.heap);
    StepKeepsDone(s, sys.heap, UseCountOf(sys, s.rcv), sys.writer.running, memory);
    OwnFile(sys, sid);
    if Validates(s.rcv, sys.heap) && UseCountOf(sys, s.rcv) == 1 { SoleOwner(sys, sid); }
    FreshUnshared(sys);
  }

  lemma FreshUnshared(sys: System)
    requires WriterFits(sys.writer, |sys.heap|)
    ensures Unshared(sys.writer, |sys.heap|)
  {
  }

  lemma HeadIsHeader(ph: Phase, s: Session, heap: seq<Buffer>)
    requires InvAt(ph, s, heap) && s.rcv.queue != [] && s.rcv.queue[0] == NetworkReceive
    ensures ph == HeaderPosted
  {
    hide IsHeader, Holds, Continues, GoodFiles, CloseIsLast, StatusOf, HandedFits, Blocks;
  }

  lemma PreparedHolds(s: Session, heap: seq<Buffer>)
    requires InvAt(Preparing, s, heap)
    ensures s.client.done < |s.client.files| && Holds(heap, s.rcv.file, Current(s), 0)
  {
    hide IsHeader, Holds, GoodFiles, CloseIsLast, HandedFits, Blocks;
  }

  lemma StepKeepsDone(s: Session, heap: seq<Buffer>, useCount: nat, running: bool, memory: seq<char>)
    requires s.rcv.stopping || s.rcv.queue != []
    ensures OnDequeue(s, heap, useCount, running, memory).s.client == s.client
  {
    hide ReadHeader, PrepareBuffer, Reuses, Verdict;
  }

  /** The receiver's buffer still misses bytes of its file. */
  predicate Incomplete(r: Receiver, heap: seq<Buffer>) {
    Validates(r, heap) && heap[r.file.value].rcvsize < heap[r.file.value].filesize
  }

  /** Shutdown order: NetworkClose is posted at most once and last, so after it is handled nothing is
      pending, no handler runs, no callback comes, and a buffer still being filled misses bytes: no
      completely received file is left behind. */
  lemma ShutdownOrder(clients: seq<seq<File>>, es: seq<Event>, sys: System, sid: nat)
    requires Reachable(clients, es, sys) && sid < |clients|
    ensures |sys.sessions| == |clients|
    ensures var s := sys.sessions[sid];
            CloseIsLast(s.rcv.posted, s.net.closed) && |s.rcv.queue| <= 2
            && (!s.rcv.linked ==>
                  s.rcv.queue == [] && s.rcv.handler.Idle?
                  && !Enabled(s, Deliver) && !Enabled(s, DeliverError)
                  && (s.rcv.state == Ready ==> Incomplete(s.rcv, sys.heap)))
  {
    hide Reachable, PhaseOf, InvAt, AllWellFormed, OwnBuffers, FillingIsPrivate, LogFits, Conserved, CloseIsLast;
    ReachableInv(clients, es, sys);
    OwnInv(sys, sid);
    var s := sys.sessions[sid];
    SessionFacts(PhaseOf(s), s, sys.heap);
    if !s.rcv.linked && s.rcv.state == Ready { UnlinkedIncomplete(PhaseOf(s), s, sys.heap); }
  }

  lemma UnlinkedIncomplete(ph: Phase, s: Session, heap: seq<Buffer>)
    requires InvAt(ph, s, heap) && !s.rcv.linked && s.rcv.state == Ready
    ensures Incomplete(s.rcv, heap)
  {
    assert |Current(s).data| > 0;
    hide IsHeader, Continues, GoodFiles, CloseIsLast, StatusOf, HandedFits, Blocks;
  }
}
