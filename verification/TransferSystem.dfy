/** The running system as a state machine: any number of client connections, each with its network,
    io thread and message thread, over one heap of file buffers and one shared writer.

    An event is one step of one thread. Handlers are split at their assignments, so that other
    threads may run between them. Undefined behaviour of the code (a null pointer, a write outside
    an array, an escaping exception) sets `fault`. */
module TransferSystem {
  import opened Text
  import opened AsciiProtocol
  import opened TcpClient
  import opened FileTransfer

  /* ---------- one connection ---------- */

  datatype CPhase = SendsHeader | AwaitsReady | Sends(off: nat) | AwaitsComplete

  /** A client offers its files one after the other; `done` of them are confirmed. */
  datatype Peer = Peer(files: seq<File>, done: nat, phase: CPhase)

  /** Blocks under way to the server, lines under way to the client. `closed` says that the error has
      been reported to the read callback, after which no read is started. */
  datatype Net = Net(up: seq<seq<char>>, down: seq<string>, broken: bool, closed: bool)

  /** Where the message thread stands. `Stored` is on_receive_complete after NewFile, `Marked` and
      `Announced` are notify_status after `state_` is set, `Reported` is after the Write. */
  datatype Handler = Idle | Prepared | Announced | Stored(status: RState) | Marked(status: RState) | Reported

  /** `file` is fileptr_ (an index into the heap), `linked` says tcpptr_ is not null, `block` is the
      unread block of the connection. `posted`, `handed` and `taken` are histories: the messages
      posted, the files given to NewFile, and which of them it took. */
  datatype Receiver = Receiver(state: RState, file: Option<nat>, linked: bool, block: seq<char>,
                               queue: seq<Msg>, handler: Handler, stopping: bool, exited: bool,
                               posted: seq<Msg>, handed: seq<File>, taken: seq<bool>, fault: bool)

  datatype Session = Session(client: Peer, net: Net, rcv: Receiver)

  datatype SEvent =
    | SendHeader(now: string)
    | SendData(n: nat)
    | ReadStatus
    | Break(keep: nat)
    | Deliver
    | DeliverError
    | Dequeue(memory: seq<char>)
    | Advance(now: string)
    | Stop

  /** The outcome of a step for the session, the heap and, if NewFile was called, its argument. */
  datatype Effect = Effect(s: Session, heap: seq<Buffer>, stored: Option<nat>)

  function Fault(r: Receiver): Receiver {
    r.(fault := true)
  }

  function Post(r: Receiver, m: Msg): Receiver {
    r.(queue := r.queue + [m], posted := r.posted + [m])
  }

  predicate Validates(r: Receiver, heap: seq<Buffer>) {
    r.file.Some? && r.file.value < |heap|
  }

  /** network_receive for a block that arrived without error. */
  function OnBlock(s: Session, heap: seq<Buffer>): Effect
    requires s.net.up != []
  {
    var block := s.net.up[0];
    var r := s.rcv.(block := block);
    var s1 := s.(net := s.net.(up := s.net.up[1..]));
    match r.state
    case Ready =>
      var bytes := block[..ReadCount(|block|, TCP_PACK_SIZE, 0)];
      if !r.linked || !Validates(r, heap) || !HasRoom(heap[r.file.value], bytes)
      then Effect(s1.(rcv := Fault(r)), heap, None)
      else
        var b := DataArrive(heap[r.file.value], bytes);
        Effect(s1.(rcv := if b.rcvsize >= b.filesize then Post(r, ReceiveComplete) else r),
                heap[r.file.value := b], None)
    case Waiting => Effect(s1.(rcv := Post(r, NetworkReceive)), heap, None)
    case _ => Effect(s1.(rcv := r), heap, None)
  }

  /** on_network_receive up to the call of notify_status. `useCount` is fileptr_.use_count(). */
  function BeginHeader(s: Session, heap: seq<Buffer>, useCount: nat, memory: seq<char>): Effect {
    var r := s.rcv;
    if !r.linked then Effect(s.(rcv := Fault(r)), heap, None)
    else
      match ReadHeader(r.block)
      case NoNewline => Effect(s.(rcv := Fault(r)), heap, None)
      case Read(Throws(_)) => Effect(s.(rcv := Fault(r)), heap, None)
      case Read(Null) => Effect(s.(net := s.net.(up := [], broken := true)), heap, None)
      case Read(Resolved(m)) =>
        if m.typ == "fileinfo" && m.fields.FileInfo? then
          var held := if Validates(r, heap) then Some(heap[r.file.value]) else None;
          var reuse := Reuses(useCount, held, m.fields.filesize);
          if !reuse && |memory| != m.fields.filesize then Effect(s.(rcv := Fault(r)), heap, None)
          else
            var b := PrepareBuffer(reuse, held, m, memory);
            if reuse then Effect(s.(rcv := r.(handler := Prepared)), heap[r.file.value := b], None)
            else Effect(s.(rcv := r.(handler := Prepared, file := Some(|heap|))), heap + [b], None)
        else Effect(s, heap, None)
  }

  /** on_receive_complete up to the call of notify_status. */
  function BeginComplete(s: Session, heap: seq<Buffer>, running: bool): Effect {
    var r := s.rcv;
    if !Validates(r, heap) then Effect(s.(rcv := Fault(r)), heap, None)
    else
      var b := heap[r.file.value];
      if Verdict(b) == Complete then
        Effect(s.(rcv := r.(handler := Stored(Complete),
                            handed := r.handed + [Content(b)], taken := r.taken + [running])),
               heap, r.file)
      else Effect(s.(rcv := r.(handler := Stored(Failure))), heap, None)
  }

  /** The message thread takes the next message; QUIT comes before every posted one. */
  function OnDequeue(s: Session, heap: seq<Buffer>, useCount: nat, running: bool, memory: seq<char>): Effect
    requires s.rcv.stopping || s.rcv.queue != []
  {
    if s.rcv.stopping then Effect(s.(rcv := s.rcv.(exited := true)), heap, None)
    else
      var s1 := s.(rcv := s.rcv.(queue := s.rcv.queue[1..]));
      match s.rcv.queue[0]
      case NetworkReceive => BeginHeader(s1, heap, useCount, memory)
      case NetworkClose => Effect(s1.(rcv := s1.rcv.(linked := false)), heap, None)
      case ReceiveComplete => BeginComplete(s1, heap, running)
  }

  /** The Write of a status line. */
  function Say(n: Net, status: RState, now: string): Net {
    n.(down := n.down + [StatusLine(StatusCode(status), now)])
  }

  /** The next assignment of the handler in progress. */
  function OnAdvance(s: Session, now: string): Session {
    var r := s.rcv;
    match r.handler
    case Idle => s
    case Prepared => s.(rcv := r.(state := Ready, handler := Announced))
    case Announced =>
      if r.linked then s.(net := Say(s.net, Ready, now), rcv := r.(handler := Idle)) else s.(rcv := Fault(r))
    case Stored(status) => s.(rcv := r.(state := status, handler := Marked(status)))
    case Marked(status) =>
      if r.linked then s.(net := Say(s.net, status, now), rcv := r.(handler := Reported)) else s.(rcv := Fault(r))
    case Reported => s.(rcv := r.(state := Waiting, handler := Idle))
  }

  /** The client acts on a status line; an answer it does not expect ends the conversation. */
  function OnStatus(s: Session): Session
    requires s.net.down != []
  {
    var c := s.client;
    var s1 := s.(net := s.net.(down := s.net.down[1..]));
    var status := StatusOf(s.net.down[0]);
    if c.phase.AwaitsReady? && status == Some(1) then s1.(client := c.(phase := Sends(0)))
    else if c.phase.AwaitsComplete? && status == Some(2) then
      s1.(client := c.(phase := SendsHeader, done := c.done + 1))
    else s1.(net := s1.net.(up := [], broken := true))
  }

  function Current(s: Session): File
    requires s.client.done < |s.client.files|
  {
    s.client.files[s.client.done]
  }

  /** When a step can happen. The client keeps to the protocol: one header line, nothing until status
      1, then the file's bytes in blocks of at most 1500, nothing until status 2. */
  predicate Enabled(s: Session, e: SEvent) {
    match e
    case SendHeader(now) =>
      !s.net.broken && s.client.phase.SendsHeader? && s.client.done < |s.client.files| && Sendable(Current(s), now)
    case SendData(n) =>
      !s.net.broken && s.client.phase.Sends? && s.client.done < |s.client.files|
      && 0 < n <= TCP_PACK_SIZE && s.client.phase.off + n <= |Current(s).data|
    case ReadStatus =>
      !s.net.broken && s.net.down != [] && (s.client.phase.AwaitsReady? || s.client.phase.AwaitsComplete?)
    case Break(keep) => !s.net.broken && keep <= |s.net.up|
    case Deliver => s.net.up != [] && !s.net.closed
    case DeliverError => s.net.broken && s.net.up == [] && !s.net.closed
    case Dequeue(memory) =>
      s.rcv.handler.Idle? && !s.rcv.exited && (s.rcv.stopping || s.rcv.queue != [])
      && FreshFits(s, memory)
    case Advance(now) => !s.rcv.handler.Idle? && GoodTag(now)
    case Stop => !s.rcv.stopping
  }

  /** `new char[filesize]` yields that many bytes, whatever they hold. */
  predicate FreshFits(s: Session, memory: seq<char>) {
    match ReadHeader(s.rcv.block)
    case Read(Resolved(m)) => m.fields.FileInfo? && m.fields.filesize >= 0 ==> |memory| == m.fields.filesize
    case _ => true
  }

  function Step(s: Session, heap: seq<Buffer>, useCount: nat, running: bool, e: SEvent): Effect
    requires Enabled(s, e)
  {
    match e
    case SendHeader(now) =>
      Effect(s.(client := s.client.(phase := AwaitsReady),
                net := s.net.(up := s.net.up + [HeaderLine(Current(s), now)])), heap, None)
    case SendData(n) =>
      var off := s.client.phase.off;
      var phase := if off + n == |Current(s).data| then AwaitsComplete else Sends(off + n);
      Effect(s.(client := s.client.(phase := phase),
                net := s.net.(up := s.net.up + [Current(s).data[off..off + n]])), heap, None)
    case ReadStatus => Effect(OnStatus(s), heap, None)
    case Break(keep) => Effect(s.(net := s.net.(up := s.net.up[..keep], down := [], broken := true)), heap, None)
    case Deliver => OnBlock(s, heap)
    case DeliverError => Effect(s.(net := s.net.(closed := true), rcv := Post(s.rcv, NetworkClose)), heap, None)
    case Dequeue(memory) => OnDequeue(s, heap, useCount, running, memory)
    case Advance(now) => Effect(OnAdvance(s, now), heap, None)
    case Stop => Effect(s.(rcv := s.rcv.(stopping := true)), heap, None)
  }

  /* ---------- the shared writer ---------- */

  /** save_first step by step: the front is read, the file is written, the front is popped, and the
      local pointer is released. */
  datatype Stage = Free | Holding(id: nat) | Written(id: nat) | Popped(id: nat)

  datatype Delivery = Delivery(sid: nat, file: File)

  /** `disk` lists the files written, in order; `log` the files NewFile took, with their session. */
  datatype Writer = Writer(running: bool, queue: seq<nat>, stage: Stage, disk: seq<File>, log: seq<Delivery>)

  datatype WEvent = Running(on: bool) | TakeFront(path: string) | WriteFile | SaveFails | PopFront | Release

  datatype System = System(sessions: seq<Session>, heap: seq<Buffer>, writer: Writer)

  predicate WEnabled(sys: System, e: WEvent) {
    var w := sys.writer;
    match e
    case Running(on) => w.running != on && w.stage.Free?
    case TakeFront(_) => w.running && w.stage.Free? && w.queue != [] && w.queue[0] < |sys.heap|
    case WriteFile => w.stage.Holding? && w.stage.id < |sys.heap|
    case SaveFails => w.stage.Holding?
    case PopFront => w.stage.Written? && w.queue != []
    case Release => w.stage.Popped?
  }

  function WStep(sys: System, e: WEvent): System
    requires WEnabled(sys, e)
  {
    var w := sys.writer;
    match e
    case Running(on) => sys.(writer := w.(running := on))
    case TakeFront(path) =>
      var b := sys.heap[w.queue[0]];
      sys.(writer := w.(stage := Holding(w.queue[0])),
           heap := sys.heap[w.queue[0] := b.(head := b.head.(subpath := path))])
    case WriteFile =>
      sys.(writer := w.(stage := Written(w.stage.id), disk := w.disk + [Plain(Content(sys.heap[w.stage.id]))]))
    case SaveFails => sys.(writer := w.(stage := Free))
    case PopFront => sys.(writer := w.(stage := Popped(w.stage.id), queue := w.queue[1..]))
    case Release => sys.(writer := w.(stage := Free))
  }

  /* ---------- the whole system ---------- */

  datatype Event = OnSession(sid: nat, e: SEvent) | OnWriter(w: WEvent)

  function CountSessions(sessions: seq<Session>, id: nat): nat {
    if sessions == [] then 0
    else CountSessions(sessions[1..], id) + if sessions[0].rcv.file == Some(id) then 1 else 0
  }

  function CountQueue(queue: seq<nat>, id: nat): nat {
    if queue == [] then 0 else CountQueue(queue[1..], id) + if queue[0] == id then 1 else 0
  }

  predicate Held(w: Writer, id: nat) {
    !w.stage.Free? && w.stage.id == id
  }

  /** shared_ptr::use_count: the sessions, the queue and save_first's local pointer. */
  function UseCount(sys: System, id: nat): nat {
    CountSessions(sys.sessions, id) + CountQueue(sys.writer.queue, id) + if Held(sys.writer, id) then 1 else 0
  }

  function UseCountOf(sys: System, r: Receiver): nat {
    if r.file.Some? then UseCount(sys, r.file.value) else 0
  }

  predicate SysEnabled(sys: System, ev: Event) {
    match ev
    case OnSession(sid, e) => sid < |sys.sessions| && Enabled(sys.sessions[sid], e)
    case OnWriter(w) => WEnabled(sys, w)
  }

  /** NewFile, when a session's step called it. */
  function NewFile(w: Writer, sid: nat, stored: Option<nat>, file: Option<File>): Writer {
    if w.running && stored.Some? && file.Some?
    then w.(queue := w.queue + [stored.value], log := w.log + [Delivery(sid, file.value)])
    else w
  }

  function LastHanded(r: Receiver): Option<File> {
    if r.handed == [] then None else Some(r.handed[|r.handed|-1])
  }

  function SysStep(sys: System, ev: Event): System
    requires SysEnabled(sys, ev)
  {
    match ev
    case OnWriter(w) => WStep(sys, w)
    case OnSession(sid, e) =>
      var s := sys.sessions[sid];
      var o := Step(s, sys.heap, UseCountOf(sys, s.rcv), sys.writer.running, e);
      System(sys.sessions[sid := o.s], o.heap, NewFile(sys.writer, sid, o.stored, LastHanded(o.s.rcv)))
  }

  function StartSession(files: seq<File>): Session {
    Session(Peer(files, 0, SendsHeader), Net([], [], false, false),
            Receiver(Waiting, None, true, [], [], Idle, false, false, [], [], [], false))
  }

  predicate GoodFiles(files: seq<File>) {
    forall i :: 0 <= i < |files| ==> GoodFile(files[i])
  }

  function Start(clients: seq<seq<File>>): System {
    System(seq(|clients|, i requires 0 <= i < |clients| => StartSession(clients[i])), [],
           Writer(false, [], Free, [], []))
  }

  /** The state after a run, if every event of it was enabled. */
  function Run(sys: System, es: seq<Event>): Option<System> {
    if es == [] then Some(sys)
    else
      match Run(sys, es[..|es|-1])
      case None => None
      case Some(p) => if SysEnabled(p, es[|es|-1]) then Some(SysStep(p, es[|es|-1])) else None
  }
}
