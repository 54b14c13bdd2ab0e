/** Progress of a connection that is neither broken nor stopped: every step counts down, and all files
    are handed over unless a header arrives in the moment between reporting COMPLETE and returning to
    WAITING. */
module TransferProgress {
  import opened Text
  import opened AsciiProtocol
  import opened TcpClient
  import opened FileTransfer
  import opened TransferSystem
  import opened TransferSafety
  import opened TransferTheorems

  /* ---------- the measure ---------- */

  function FileCost(f: File): nat {
    2 * |f.data| + 13
  }

  /** The steps the files from `from` on can take. */
  function CostFrom(files: seq<File>, from: nat): nat
    decreases |files| - from
  {
    if from >= |files| then 0 else FileCost(files[from]) + CostFrom(files, from + 1)
  }

  /** Files left, phase, bytes unsent, blocks under way, and the last assignment of a handler. */
  function Work(ph: Phase, s: Session): nat {
    var c := s.client;
    if c.done >= |c.files| then (if s.rcv.handler.Reported? then 1 else 0)
    else
      var f, later := c.files[c.done], CostFrom(c.files, c.done + 1);
      (if s.rcv.handler.Reported? then 1 else 0) + later +
      match ph
      case Rest => 2 * |f.data| + 13
      case HeaderUp => 2 * |f.data| + 12
      case HeaderPosted => 2 * |f.data| + 11
      case Lost => 2 * |f.data| + 10
      case Preparing => 2 * |f.data| + 10
      case Announcing => 2 * |f.data| + 9
      case ReadyDown => 2 * |f.data| + 8
      case Streaming =>
        2 * (if c.phase.Sends? && c.phase.off <= |f.data| then |f.data| - c.phase.off else 0) + |s.net.up| + 7
      case Full => 6
      case Storing => 5
      case Marking => 4
      case CompleteDown => 2
  }

  /** Neither broken nor stopping. */
  predicate Undisturbed(s: Session) {
    !s.net.broken && !s.rcv.stopping && !s.rcv.exited
  }

  predicate Interrupts(e: SEvent) {
    e.Break? || e.Stop?
  }

  lemma StepCountsDown(ph: Phase, s: Session, heap: seq<Buffer>, useCount: nat, running: bool, e: SEvent)
    requires InvAt(ph, s, heap) && Enabled(s, e) && AllWellFormed(heap) && Undisturbed(s) && !Interrupts(e)
    ensures e.Deliver? ==> s.client.done < |s.client.files|
    ensures var o := Step(s, heap, useCount, running, e); var ph' := NextPhase(ph, s, o.heap, e);
            Work(ph', o.s) < Work(ph, s) && Undisturbed(o.s)
            && (ph' == Lost <==> ph == Lost || (e == Deliver && s.rcv.state == Complete))
  {
    hide IsHeader, Holds, Continues, GoodFiles, CloseIsLast, HandedFits, StatusOf, HeaderLine, StatusLine, Sendable,
      Blocks;
    match e
    case Deliver => DeliverCountsDown(ph, s, heap);
    case Dequeue(memory) => DequeueCountsDown(ph, s, heap, useCount, running, memory);
    case Advance(now) => AdvanceCountsDown(ph, s, heap, now);
    case ReadStatus => ReadCountsDown(ph, s, heap);
    case _ =>
  }

  lemma DeliverCountsDown(ph: Phase, s: Session, heap: seq<Buffer>)
    requires s.net.up != []
    requires InvAt(ph, s, heap) && Enabled(s, Deliver) && Undisturbed(s)
    ensures s.client.done < |s.client.files|
    ensures var o := OnBlock(s, heap); var ph' := AfterDeliver(ph, s, o.heap);
            Work(ph', o.s) < Work(ph, s) && Undisturbed(o.s)
            && (ph' == Lost <==> ph == Lost || s.rcv.state == Complete)
  {
    hide IsHeader, Holds, Continues, GoodFiles, CloseIsLast, HandedFits, StatusOf, Blocks, DataArrive, CostFrom;
    OnlyHeaderOrData(ph, s, heap);
    hide InvAt, OnBlock, Work, Undisturbed;
    if ph == Streaming { BlockCountsDown(s, heap); } else { HeaderCountsDown(s, heap); }
  }

  lemma BlockCountsDown(s: Session, heap: seq<Buffer>)
    requires s.net.up != []
    requires InvAt(Streaming, s, heap) && Enabled(s, Deliver) && Undisturbed(s)
    ensures s.client.done < |s.client.files|
    ensures var o := OnBlock(s, heap); var ph' := AfterDeliver(Streaming, s, o.heap);
            Work(ph', o.s) < Work(Streaming, s) && Undisturbed(o.s) && ph' != Lost && s.rcv.state == Ready
  {
    hide IsHeader, Holds, Continues, GoodFiles, CloseIsLast, HandedFits, StatusOf, Blocks, DataArrive, CostFrom;
    DeliverStreaming(s, heap);
  }

  lemma HeaderCountsDown(s: Session, heap: seq<Buffer>)
    requires s.net.up != []
    requires InvAt(HeaderUp, s, heap) && Enabled(s, Deliver) && Undisturbed(s)
    ensures s.client.done < |s.client.files|
    ensures var o := OnBlock(s, heap); var ph' := AfterDeliver(HeaderUp, s, o.heap);
            Work(ph', o.s) < Work(HeaderUp, s) && Undisturbed(o.s) && (ph' == Lost <==> s.rcv.state == Complete)
  {
    hide IsHeader, Holds, GoodFiles, CloseIsLast, HandedFits, StatusOf, Blocks, CostFrom;
  }

  lemma DequeueCountsDown(ph: Phase, s: Session, heap: seq<Buffer>, useCount: nat, running: bool, memory: seq<char>)
    requires s.rcv.stopping || s.rcv.queue != []
    requires InvAt(ph, s, heap) && Enabled(s, Dequeue(memory)) && AllWellFormed(heap) && Undisturbed(s)
    ensures var o := OnDequeue(s, heap, useCount, running, memory); var ph' := AfterDequeue(ph);
            Work(ph', o.s) < Work(ph, s) && Undisturbed(o.s) && (ph' == Lost <==> ph == Lost)
  {
    hide IsHeader, Holds, Continues, GoodFiles, CloseIsLast, HandedFits, StatusOf, Blocks, FreshFits, ReadHeader,
      CostFrom, Content;
    assert ph in {HeaderPosted, Full};
    if ph == HeaderPosted {
      DequeueHeader(s, heap, useCount, running, memory);
      StepKeepsDone(s, heap, useCount, running, memory);
      HeaderKeepsNet(s, heap, useCount, running, memory);
    }
  }

  /** A good header leaves the network alone and the thread running. */
  lemma HeaderKeepsNet(s: Session, heap: seq<Buffer>, useCount: nat, running: bool, memory: seq<char>)
    requires s.rcv.stopping || s.rcv.queue != []
    requires InvAt(HeaderPosted, s, heap) && Enabled(s, Dequeue(memory)) && AllWellFormed(heap) && Undisturbed(s)
    ensures var o := OnDequeue(s, heap, useCount, running, memory);
            o.s.net == s.net && Undisturbed(o.s) && o.s.rcv.handler == Prepared
  {
    hide IsHeader, GoodFiles, CloseIsLast, Blocks, HandedFits, Continues, ReadHeader, GoodTag, FileInfoMessage,
      StatusOf, Holds;
    PostedHeader(s, heap);
    var now :| GoodTag(now) && ReadHeader(s.rcv.block) == Read(Resolved(FileInfoMessage(Current(s)).(utc := now)));
    var s1 := s.(rcv := s.rcv.(queue := s.rcv.queue[1..]));
    MemoryFits(s, memory, now);
    HeaderPrepared(s1, heap, useCount, memory, now);
  }

  lemma AdvanceCountsDown(ph: Phase, s: Session, heap: seq<Buffer>, now: string)
    requires InvAt(ph, s, heap) && Enabled(s, Advance(now)) && Undisturbed(s)
    ensures var t := OnAdvance(s, now); var ph' := AfterAdvance(ph);
            Work(ph', t) < Work(ph, s) && Undisturbed(t) && (ph' == Lost <==> ph == Lost)
  {
    hide IsHeader, Holds, Continues, GoodFiles, CloseIsLast, HandedFits, StatusOf, Blocks, StatusLine, CostFrom;
  }

  lemma ReadCountsDown(ph: Phase, s: Session, heap: seq<Buffer>)
    requires s.net.down != []
    requires InvAt(ph, s, heap) && Enabled(s, ReadStatus) && Undisturbed(s)
    ensures var t := OnStatus(s); var ph' := if ph == ReadyDown then Streaming else Rest;
            Work(ph', t) < Work(ph, s) && Undisturbed(t) && ph != Lost
  {
    hide IsHeader, Holds, Continues, GoodFiles, CloseIsLast, HandedFits, StatusOf, Blocks;
    ReadStatusKeeps(ph, s, heap);
  }

  /* ---------- something can always happen ---------- */

  /** Memory that fits whatever header is about to be read. */
  ghost function SomeMemory(s: Session): (memory: seq<char>)
    ensures FreshFits(s, memory)
  {
    match ReadHeader(s.rcv.block)
    case Read(Resolved(m)) =>
      if m.fields.FileInfo? && m.fields.filesize >= 0 then seq(m.fields.filesize, i => ' ') else []
    case _ => []
  }

  /** A step the connection can take; it leaves a handler's last assignment for later. */
  ghost function NextEvent(ph: Phase, s: Session, tag: string): SEvent {
    match ph
    case Rest => SendHeader(tag)
    case HeaderUp => Deliver
    case HeaderPosted => Dequeue(SomeMemory(s))
    case Lost => Advance(tag)
    case Preparing => Advance(tag)
    case Announcing => Advance(tag)
    case ReadyDown => ReadStatus
    case Streaming => if s.net.up != [] then Deliver else SendData(1)
    case Full => Dequeue(SomeMemory(s))
    case Storing => Advance(tag)
    case Marking => Advance(tag)
    case CompleteDown => ReadStatus
  }

  /** A header was ignored and nothing more can happen. */
  predicate Stuck(ph: Phase, s: Session) {
    ph == Lost && s.rcv.handler.Idle?
  }

  predicate SendableFiles(files: seq<File>, tag: string) {
    forall i :: 0 <= i < |files| ==> Sendable(files[i], tag)
  }

  lemma NextEventEnabled(ph: Phase, s: Session, heap: seq<Buffer>, tag: string)
    requires InvAt(ph, s, heap) && Undisturbed(s) && SendableFiles(s.client.files, tag)
    requires s.client.done < |s.client.files| && !Stuck(ph, s)
    ensures Enabled(s, NextEvent(ph, s, tag)) && !Interrupts(NextEvent(ph, s, tag))
  {
    hide IsHeader, Holds, GoodFiles, CloseIsLast, HandedFits, StatusOf, Blocks, FreshFits, GoodTag, GoodFile,
      HeaderLine, Sendable, SendableFiles, Continues;
    CurrentSendable(s, tag);
    if ph == Streaming && s.net.up == [] { StreamCanGoOn(s, heap); }
  }

  lemma CurrentSendable(s: Session, tag: string)
    requires SendableFiles(s.client.files, tag) && s.client.done < |s.client.files|
    ensures Sendable(Current(s), tag) && GoodTag(tag)
  {
    hide GoodFile, GoodTag, HeaderLine;
  }

  lemma StreamCanGoOn(s: Session, heap: seq<Buffer>)
    requires InvAt(Streaming, s, heap) && Undisturbed(s) && s.net.up == []
    ensures s.client.phase.Sends? && s.client.phase.off < |Current(s).data|
  {
    hide IsHeader, Holds, GoodFiles, CloseIsLast, HandedFits, StatusOf, Blocks;
  }

  lemma StuckIsStuck(s: Session, heap: seq<Buffer>, e: SEvent)
    requires InvAt(Lost, s, heap) && Undisturbed(s) && s.rcv.handler.Idle? && !Interrupts(e)
    ensures !Enabled(s, e)
  {
    hide IsHeader, Holds, GoodFiles, CloseIsLast, HandedFits, StatusOf, Blocks, FreshFits, GoodTag, Sendable;
  }

  /* ---------- whole runs ---------- */

  /** No break and no Stop of connection `sid`. */
  predicate NoInterrupt(es: seq<Event>, sid: nat) {
    forall i :: 0 <= i < |es| && es[i].OnSession? && es[i].sid == sid ==> !Interrupts(es[i].e)
  }

  function StepsOf(es: seq<Event>, sid: nat): nat {
    if es == [] then 0
    else StepsOf(es[..|es|-1], sid) + if es[|es|-1].OnSession? && es[|es|-1].sid == sid then 1 else 0
  }

  /** Some block was delivered to `sid` while its `state_` was COMPLETE. */
  predicate MetComplete(sys: System, es: seq<Event>, sid: nat) {
    es != [] &&
    (var init := es[..|es|-1];
     MetComplete(sys, init, sid)
     || (es[|es|-1] == OnSession(sid, Deliver)
         && match Run(sys, init)
            case None => false
            case Some(p) => sid < |p.sessions| && p.sessions[sid].rcv.state == Complete))
  }

  /** What a run without interruption keeps: the steps taken and the work left stay within the cost of
      the files, and the connection is lost exactly when a block met COMPLETE. */
  ghost predicate OnCourse(sys: System, es: seq<Event>, sid: nat, p: System) {
    && sid < |p.sessions| && SystemInv(p) && Undisturbed(p.sessions[sid])
    && sid < |sys.sessions| && p.sessions[sid].client.files == sys.sessions[sid].client.files
    && StepsOf(es, sid) + Work(PhaseOf(p.sessions[sid]), p.sessions[sid]) <= CostFrom(p.sessions[sid].client.files, 0)
    && (PhaseOf(p.sessions[sid]) == Lost <==> MetComplete(sys, es, sid))
  }

  lemma OwnStepOnCourse(sys: System, es: seq<Event>, sid: nat, p: System, e: SEvent)
    requires es != [] && es[|es|-1] == OnSession(sid, e) && !Interrupts(e)
    requires Run(sys, es[..|es|-1]) == Some(p) && OnCourse(sys, es[..|es|-1], sid, p)
    requires SysEnabled(p, OnSession(sid, e))
    ensures OnCourse(sys, es, sid, SysStep(p, OnSession(sid, e)))
  {
    hide InvAt, PhaseOf, Work, CostFrom, Step, Enabled, SystemInv, NextPhase, Undisturbed, Run;
    var s := p.sessions[sid];
    var ph, n, running := PhaseOf(s), UseCountOf(p, s.rcv), p.writer.running;
    SystemParts(p, sid);
    StepCountsDown(ph, s, p.heap, n, running, e);
    SessionStep(ph, s, p.heap, n, running, e);
    var o := Step(s, p.heap, n, running, e);
    PhaseIs(NextPhase(ph, s, o.heap, e), o.s, o.heap);
    SessionEventKeeps(p, sid, e);
    StepKeepsFiles(s, p.heap, n, running, e);
  }

  lemma SystemParts(p: System, sid: nat)
    requires SystemInv(p) && sid < |p.sessions|
    ensures InvAt(PhaseOf(p.sessions[sid]), p.sessions[sid], p.heap) && AllWellFormed(p.heap)
  {
    hide InvAt, PhaseOf, OwnBuffers, WellFormed;
    OwnInv(p, sid);
  }

  lemma OtherStepOnCourse(sys: System, es: seq<Event>, sid: nat, p: System)
    requires es != [] && !(es[|es|-1].OnSession? && es[|es|-1].sid == sid)
    requires Run(sys, es[..|es|-1]) == Some(p) && OnCourse(sys, es[..|es|-1], sid, p) && SysEnabled(p, es[|es|-1])
    ensures OnCourse(sys, es, sid, SysStep(p, es[|es|-1]))
  {
    hide InvAt, PhaseOf, Work, CostFrom, Step, Enabled, SystemInv, Undisturbed, WEnabled, Run;
    EventKeeps(p, es[|es|-1]);
  }

  lemma {:induction false} RunOnCourse(sys: System, es: seq<Event>, sid: nat)
    requires Run(sys, es).Some? && OnCourse(sys, [], sid, sys) && NoInterrupt(es, sid)
    ensures OnCourse(sys, es, sid, Run(sys, es).value)
  {
    hide SysStep, SysEnabled, OnCourse;
    if es != [] {
      var init, last := es[..|es|-1], es[|es|-1];
      RunOnCourse(sys, init, sid);
      var p := Run(sys, init).value;
      if last.OnSession? && last.sid == sid { OwnStepOnCourse(sys, es, sid, p, last.e); }
      else { OtherStepOnCourse(sys, es, sid, p); }
    }
  }

  lemma StartOnCourse(clients: seq<seq<File>>, sid: nat)
    requires GoodClients(clients) && sid < |clients|
    ensures OnCourse(Start(clients), [], sid, Start(clients))
  {
    hide SystemInv, GoodFiles;
    StartInv(clients);
    assert Start(clients).sessions[sid] == StartSession(clients[sid]);
  }

  lemma ReachableOnCourse(clients: seq<seq<File>>, es: seq<Event>, sys: System, sid: nat)
    requires Reachable(clients, es, sys) && sid < |clients| && NoInterrupt(es, sid)
    ensures OnCourse(Start(clients), es, sid, sys) && sys.sessions[sid].client.files == clients[sid]
  {
    hide OnCourse, Run, GoodFiles;
    StartOnCourse(clients, sid);
    RunOnCourse(Start(clients), es, sid);
    assert Start(clients).sessions[sid].client.files == clients[sid];
    assert OnCourse(Start(clients), es, sid, sys);
    FilesOnCourse(Start(clients), es, sid, sys);
  }

  lemma FilesOnCourse(sys: System, es: seq<Event>, sid: nat, p: System)
    requires OnCourse(sys, es, sid, p)
    ensures sid < |sys.sessions| && sid < |p.sessions|
    ensures p.sessions[sid].client.files == sys.sessions[sid].client.files
  {
    hide SystemInv, PhaseOf, Work, CostFrom, MetComplete;
  }

  /** Nothing but an interruption can happen to the connection. */
  ghost predicate Quiescent(s: Session) {
    forall e: SEvent :: !Interrupts(e) ==> !Enabled(s, e)
  }

  /** Progress, exactly: without breaks and stops a connection takes at most the cost of its files in
      steps; and once it can take none, all its files have been handed over if and only if no block
      ever arrived while `state_` was COMPLETE. */
  lemma ProgressExactly(clients: seq<seq<File>>, es: seq<Event>, sys: System, sid: nat, tag: string)
    requires Reachable(clients, es, sys) && sid < |clients| && NoInterrupt(es, sid)
    requires SendableFiles(clients[sid], tag)
    ensures sid < |sys.sessions| && StepsOf(es, sid) <= CostFrom(clients[sid], 0)
    ensures Quiescent(sys.sessions[sid]) ==>
              (sys.sessions[sid].rcv.handed == clients[sid] <==> !MetComplete(Start(clients), es, sid))
  {
    hide Reachable, SystemInv, Work, CostFrom, InvAt, PhaseOf, Enabled, MetComplete, SendableFiles, Quiescent;
    ReachableInv(clients, es, sys);
    ReachableOnCourse(clients, es, sys, sid);
    var s := sys.sessions[sid];
    var ph := PhaseOf(s);
    SystemParts(sys, sid);
    if Quiescent(s) { QuiescentMeansDone(ph, s, sys.heap, tag); }
  }

  lemma QuiescentMeansDone(ph: Phase, s: Session, heap: seq<Buffer>, tag: string)
    requires InvAt(ph, s, heap) && Undisturbed(s) && SendableFiles(s.client.files, tag) && Quiescent(s)
    ensures s.rcv.handed == s.client.files <==> ph != Lost
  {
    hide Enabled, Holds, IsHeader, GoodFiles, CloseIsLast, StatusOf, Blocks, Continues, SendableFiles, Settled;
    if s.client.done < |s.client.files| && !Stuck(ph, s) {
      NextEventEnabled(ph, s, heap, tag);
      assert false;
    }
  }

  /** With handlers that run to their end before the next block is read, no header is ever lost. */
  predicate HandlersAtomic(sys: System, es: seq<Event>, sid: nat) {
    es == [] ||
    (var init := es[..|es|-1];
     HandlersAtomic(sys, init, sid)
     && (es[|es|-1] == OnSession(sid, Deliver) ==>
           match Run(sys, init)
           case None => true
           case Some(p) => sid < |p.sessions| ==> p.sessions[sid].rcv.handler.Idle?))
  }

  lemma IdleIsNotComplete(ph: Phase, s: Session, heap: seq<Buffer>)
    requires InvAt(ph, s, heap) && s.rcv.handler.Idle?
    ensures s.rcv.state != Complete
  {
    hide Holds, IsHeader, GoodFiles, CloseIsLast, StatusOf, Blocks, Continues, HandedFits;
  }

  lemma {:induction false} AtomicHandlersLoseNothing(clients: seq<seq<File>>, es: seq<Event>, sid: nat)
    requires GoodClients(clients) && sid < |clients| && HandlersAtomic(Start(clients), es, sid)
    ensures !MetComplete(Start(clients), es, sid)
  {
    hide SystemInv, InvAt, PhaseOf, GoodFiles, SysStep, SysEnabled;
    if es != [] {
      var init := es[..|es|-1];
      AtomicHandlersLoseNothing(clients, init, sid);
      var p := Run(Start(clients), init);
      if p.Some? {
        ReachableInv(clients, init, p.value);
        SystemParts(p.value, sid);
        if p.value.sessions[sid].rcv.handler.Idle? {
          IdleIsNotComplete(PhaseOf(p.value.sessions[sid]), p.value.sessions[sid], p.value.heap);
        }
      }
    }
  }

  /* ---------- a header can be lost ---------- */

  lemma RunAppend(sys: System, es: seq<Event>, ev: Event)
    requires Run(sys, es).Some? && SysEnabled(Run(sys, es).value, ev)
    ensures Run(sys, es + [ev]) == Some(SysStep(Run(sys, es).value, ev))
  {
    hide SysStep, SysEnabled;
    assert (es + [ev])[..|es|] == es;
  }

  /** On the way to losing a header: the next file's header can still meet the COMPLETE of this one. */
  predicate CanLose(ph: Phase, s: Session) {
    || ph == Lost
    || (s.client.done < |s.client.files| && s.rcv.handler.Reported? && (ph == Rest || ph == HeaderUp))
    || (s.client.done + 1 < |s.client.files| && (ph == CompleteDown ==> s.rcv.handler.Reported?))
  }

  lemma CanLoseStep(ph: Phase, s: Session, heap: seq<Buffer>, useCount: nat, running: bool, tag: string)
    requires InvAt(ph, s, heap) && AllWellFormed(heap) && Undisturbed(s) && CanLose(ph, s) && ph != Lost
    requires Enabled(s, NextEvent(ph, s, tag))
    ensures s.client.done < |s.client.files|
    ensures var e := NextEvent(ph, s, tag); var o := Step(s, heap, useCount, running, e);
            CanLose(NextPhase(ph, s, o.heap, e), o.s)
  {
    hide IsHeader, Holds, Continues, GoodFiles, CloseIsLast, HandedFits, StatusOf, HeaderLine, StatusLine, Sendable,
      Blocks, FreshFits, ReadHeader, Content, DataArrive, SomeMemory;
    var e := NextEvent(ph, s, tag);
    if ph == HeaderPosted {
      HeaderKeepsNet(s, heap, useCount, running, e.memory);
      StepKeepsDone(s, heap, useCount, running, e.memory);
    } else if ph == Full {
      StepKeepsDone(s, heap, useCount, running, e.memory);
    } else if ph == Streaming && e.Deliver? {
      DeliverStreaming(s, heap);
      DeliverKeepsClient(s, heap);
    } else if ph == ReadyDown || ph == CompleteDown {
      ReadStatusKeeps(ph, s, heap);
    }
  }

  lemma DeliverKeepsClient(s: Session, heap: seq<Buffer>)
    requires s.net.up != []
    ensures OnBlock(s, heap).s.client == s.client
  {
    hide DataArrive, HasRoom;
  }

  lemma {:induction false} MetCompleteStays(sys: System, es: seq<Event>, more: seq<Event>, sid: nat)
    requires es <= more && MetComplete(sys, es, sid)
    ensures MetComplete(sys, more, sid)
  {
    hide Run;
    if |es| < |more| { MetCompleteStays(sys, es, more[..|more|-1], sid); } else { assert es == more; }
  }

  lemma LostWaits(s: Session, heap: seq<Buffer>)
    requires InvAt(Lost, s, heap)
    ensures s.client.phase.AwaitsReady? && s.rcv.handed < s.client.files
  {
    hide IsHeader, Holds, GoodFiles, CloseIsLast, StatusOf, Blocks, Continues;
  }

  lemma StuckIsQuiescent(s: Session, heap: seq<Buffer>)
    requires InvAt(Lost, s, heap) && Undisturbed(s) && s.rcv.handler.Idle?
    ensures Quiescent(s)
  {
    hide InvAt, Undisturbed, Enabled;
    forall e: SEvent | !Interrupts(e) ensures !Enabled(s, e) { StuckIsStuck(s, heap, e); }
  }

  /** Once a block met COMPLETE, the client waits for status 1 in every later state, with files never
      handed over; and as soon as the handler has ended, nothing but an interruption can happen. */
  lemma WaitsForEver(clients: seq<seq<File>>, es: seq<Event>, more: seq<Event>, end: System, sid: nat)
    requires Reachable(clients, more, end) && sid < |clients| && es <= more && NoInterrupt(more, sid)
    requires MetComplete(Start(clients), es, sid)
    ensures sid < |end.sessions| && end.sessions[sid].client.phase.AwaitsReady?
    ensures end.sessions[sid].rcv.handed < clients[sid]
    ensures end.sessions[sid].rcv.handler.Idle? ==> Quiescent(end.sessions[sid])
  {
    hide Reachable, SystemInv, Work, CostFrom, InvAt, PhaseOf, Enabled, MetComplete, Quiescent;
    MetCompleteStays(Start(clients), es, more, sid);
    ReachableOnCourse(clients, more, end, sid);
    var s := end.sessions[sid];
    SystemParts(end, sid);
    LostWaits(s, end.heap);
    if s.rcv.handler.Idle? { StuckIsQuiescent(s, end.heap); }
  }

  /** In every uninterrupted continuation of `es` the client of `sid` still waits for status 1. */
  ghost predicate LeftWaiting(clients: seq<seq<File>>, es: seq<Event>, sid: nat)
    requires sid < |clients|
  {
    forall more, end: System :: Reachable(clients, more, end) && es <= more && NoInterrupt(more, sid) ==>
      sid < |end.sessions| && end.sessions[sid].client.phase.AwaitsReady? && end.sessions[sid].rcv.handed < clients[sid]
  }

  lemma MetCompleteLeavesWaiting(clients: seq<seq<File>>, es: seq<Event>, sid: nat)
    requires sid < |clients| && MetComplete(Start(clients), es, sid)
    ensures LeftWaiting(clients, es, sid)
  {
    hide Reachable, MetComplete, NoInterrupt, Quiescent;
    forall more, end: System | Reachable(clients, more, end) && es <= more && NoInterrupt(more, sid)
      ensures sid < |end.sessions| && end.sessions[sid].client.phase.AwaitsReady?
      ensures end.sessions[sid].rcv.handed < clients[sid]
    {
      WaitsForEver(clients, es, more, end, sid);
    }
  }

  /** The race is real: from every undisturbed state in which the next header can still meet the
      COMPLETE of this file (see CanLose) some continuation loses a header, and the client is left
      waiting for status 1 for ever. */
  lemma {:induction false} HeaderCanBeLost(clients: seq<seq<File>>, es: seq<Event>, sys: System, sid: nat, tag: string)
      returns (more: seq<Event>, end: System)
    requires Reachable(clients, es, sys) && sid < |clients| && NoInterrupt(es, sid) && SendableFiles(clients[sid], tag)
    requires sid < |sys.sessions| && CanLose(PhaseOf(sys.sessions[sid]), sys.sessions[sid])
    ensures Reachable(clients, more, end) && es <= more && NoInterrupt(more, sid)
    ensures MetComplete(Start(clients), more, sid) && LeftWaiting(clients, more, sid)
    decreases Work(PhaseOf(sys.sessions[sid]), sys.sessions[sid])
  {
    hide SystemInv, InvAt, PhaseOf, Work, CostFrom, Enabled, Step, NextPhase, CanLose, SendableFiles, MetComplete,
      GoodFiles, NextEvent, Run, Undisturbed, LeftWaiting;
    ReachableInv(clients, es, sys);
    ReachableOnCourse(clients, es, sys, sid);
    var s := sys.sessions[sid];
    var ph := PhaseOf(s);
    if ph == Lost {
      MetCompleteLeavesWaiting(clients, es, sid);
      return es, sys;
    }
    SystemParts(sys, sid);
    CanLoseHasFile(ph, s);
    NextEventEnabled(ph, s, sys.heap, tag);
    var e, n, running := NextEvent(ph, s, tag), UseCountOf(sys, s.rcv), sys.writer.running;
    var ev := OnSession(sid, e);
    CanLoseStep(ph, s, sys.heap, n, running, tag);
    StepCountsDown(ph, s, sys.heap, n, running, e);
    SessionStep(ph, s, sys.heap, n, running, e);
    var o := Step(s, sys.heap, n, running, e);
    PhaseIs(NextPhase(ph, s, o.heap, e), o.s, o.heap);
    RunAppend(Start(clients), es, ev);
    assert SysStep(sys, ev).sessions[sid] == o.s;
    more, end := HeaderCanBeLost(clients, es + [ev], SysStep(sys, ev), sid, tag);
  }

  lemma CanLoseHasFile(ph: Phase, s: Session)
    requires CanLose(ph, s) && ph != Lost
    ensures s.client.done < |s.client.files| && !Stuck(ph, s)
  {
  }

  /** So every client that offers two or more files can be left waiting for ever, by the threads alone. */
  lemma HeaderLossIsReachable(clients: seq<seq<File>>, sid: nat, tag: string)
    requires GoodClients(clients) && sid < |clients| && |clients[sid]| >= 2 && SendableFiles(clients[sid], tag)
    ensures exists es, sys :: Reachable(clients, es, sys) && NoInterrupt(es, sid)
              && MetComplete(Start(clients), es, sid) && LeftWaiting(clients, es, sid)
  {
    hide GoodFiles, SendableFiles, MetComplete, LeftWaiting;
    assert Start(clients).sessions[sid] == StartSession(clients[sid]);
    assert PhaseOf(StartSession(clients[sid])) == Rest;
    var es, sys := HeaderCanBeLost(clients, [], Start(clients), sid, tag);
  }
}
