/** The receiver's objects: the buffer a file is assembled in and the connection's state machine.
    Every handler is proved to take the step that TransferSystem describes. */
module FileReceiver {
  import opened Text
  import opened AsciiProtocol
  import opened AsciiCoder
  import opened AsciiNumbers
  import AsciiDispatch
  import opened TcpClient
  import MessageQueue
  import FileWriter
  import opened FileTransfer
  import opened TransferSystem

  const MSG_NETWORK_RECEIVE: int := MessageQueue.MSG_USER
  const MSG_NETWORK_CLOSE: int := MessageQueue.MSG_USER + 1
  const MSG_RECEIVE_COMPLETE: int := MessageQueue.MSG_USER + 2

  /** The slots of the three handlers. */
  const ON_NETWORK_RECEIVE: int := 1
  const ON_NETWORK_CLOSE: int := 2
  const ON_RECEIVE_COMPLETE: int := 3

  const HANDLERS: map<int, seq<int>> :=
    map[MSG_NETWORK_RECEIVE := [ON_NETWORK_RECEIVE], MSG_NETWORK_CLOSE := [ON_NETWORK_CLOSE],
        MSG_RECEIVE_COMPLETE := [ON_RECEIVE_COMPLETE]]

  class FileInfo {
    var head: Header
    const filesize: nat
    var rcvsize: nat
    const filedata: array<char>

    ghost predicate Valid() {
      filedata.Length == filesize
    }

    ghost function Value(): Buffer
      reads this, filedata
    {
      Buffer(head, filesize, rcvsize, filedata[..])
    }

    constructor (n: nat)
      ensures Valid() && filesize == n && rcvsize == 0 && fresh(filedata)
    {
      head, filesize, rcvsize := Header("", "", "", "", "", ""), n, 0;
      filedata := new char[n];
    }

    /** The memcpy behind the bytes that are there, and the counter. */
    method DataArrive(data: array<char>, n: nat) returns (done: bool)
      requires Valid() && data != filedata && n <= data.Length && HasRoom(Value(), data[..n])
      modifies this`rcvsize, filedata
      ensures Value() == FileTransfer.DataArrive(old(Value()), data[..n])
      ensures done <==> rcvsize >= filesize
    {
      forall i | 0 <= i < n { filedata[rcvsize + i] := data[i]; }
      rcvsize := rcvsize + n;
      done := rcvsize >= filesize;
    }
  }

  function MsgOf(id: int): Msg {
    if id == MSG_NETWORK_RECEIVE then NetworkReceive
    else if id == MSG_NETWORK_CLOSE then NetworkClose
    else ReceiveComplete
  }

  function Msgs(q: seq<MessageQueue.Entry>): seq<Msg> {
    seq(|q|, i requires 0 <= i < |q| => MsgOf(q[i].id))
  }

  lemma MsgsAppend(q: seq<MessageQueue.Entry>, e: MessageQueue.Entry)
    ensures Msgs(q + [e]) == Msgs(q) + [MsgOf(e.id)]
  {
  }

  lemma MsgsRest(q: seq<MessageQueue.Entry>)
    requires q != []
    ensures Msgs(q) != [] && Msgs(q)[0] == MsgOf(q[0].id) && Msgs(q[1..]) == Msgs(q)[1..]
  {
  }

  /** A session up to the place of its buffer in the heap, and without a connection it has released. */
  function Seen(s: Session): Session {
    var r := s.rcv.(file := if s.rcv.file.Some? then Some(0) else None);
    if r.linked then s.(rcv := r) else s.(net := s.net.(down := [], broken := false), rcv := r.(block := []))
  }

  lemma SeenIs(s: Session)
    requires s.rcv.file in {None, Some(0)}
    requires !s.rcv.linked ==> s.net.down == [] && !s.net.broken && s.rcv.block == []
    ensures Seen(s) == s
  {
  }

  /** The handler run to its end. */
  function Finish(s: Session, now: string): Session {
    OnAdvance(OnAdvance(OnAdvance(s, now), now), now)
  }

  /** What lies behind a NUL does not matter. */
  lemma CStringEnds(s: string, n: nat, pos: nat)
    requires pos < n <= |s| && s[pos] == NUL
    ensures CString(s) == CString(s[..n])
  {
    var i := Find(s[..n], NUL);
    assert forall k :: 0 <= k < i ==> s[..n][k] == s[..n][..i][k] && s[k] == s[..n][k];
    assert s[..n][..i] == s[..i];
    FindUnique(s, NUL, i);
  }

  lemma LineInFront(block: string, s: string, pos: int)
    requires pos == FirstMatch(block, "\n", 0) && 0 <= pos < |s|
    requires s[..pos] == block[..pos] && s[pos] == NUL
    ensures ReadHeader(block) == FileTransfer.Read(AsciiProtocol.Resolve(CString(s)))
  {
    hide AsciiProtocol.Resolve, CString;
    assert block[..pos + 1][pos := NUL] == s[..pos + 1];
    CStringEnds(s, pos + 1, pos);
  }

  lemma FinishStored(s: Session, status: RState, now: string)
    requires s.rcv.handler == Stored(status) && s.rcv.linked
    ensures Finish(s, now) == s.(net := Say(s.net, status, now), rcv := s.rcv.(state := Waiting, handler := Idle))
  {
    hide Say;
  }

  lemma CompleteRunsThrough(s: Session, b: Buffer, running: bool, now: string)
    requires s.rcv.linked && s.rcv.file == Some(0)
    ensures var e, v := BeginComplete(s, [b], running), Verdict(b);
            e.heap == [b] && e.s.rcv.fault == s.rcv.fault && Seen(Finish(e.s, now)) == Finish(e.s, now)
            && Finish(e.s, now) == s.(net := Say(s.net, v, now), rcv := s.rcv.(state := Waiting, handler := Idle,
              handed := s.rcv.handed + (if v == Complete then [Content(b)] else []),
              taken := s.rcv.taken + (if v == Complete then [running] else [])))
  {
    hide Finish, Say, Content;
    FinishStored(BeginComplete(s, [b], running).s, Verdict(b), now);
  }

  lemma FinishPrepared(s: Session, now: string)
    requires s.rcv.handler == Prepared && s.rcv.linked
    ensures Finish(s, now) == s.(net := Say(s.net, Ready, now), rcv := s.rcv.(state := Ready, handler := Idle))
  {
    hide Say;
  }

  /** A number in a message of another kind throws; clients send no such messages. */
  predicate NumberThrows(block: string, stod: AsciiDispatch.Stod) {
    match ReadHeader(block)
    case NoNewline => false
    case Read(o) => o.Resolved? && WithErrors(o, stod).Throws?
  }

  /** What a block does, where it does not fault. */
  lemma BlockCases(s: Session, heap: seq<Buffer>)
    requires s.net.up != [] && |s.net.up[0]| <= TCP_PACK_SIZE && !OnBlock(s, heap).s.rcv.fault
    ensures var block := s.net.up[0];
            var r, n := s.rcv.(block := block), s.net.(up := s.net.up[1..]);
            if s.rcv.state == Ready then
              s.rcv.linked && Validates(s.rcv, heap) && HasRoom(heap[s.rcv.file.value], block)
              && (var b := FileTransfer.DataArrive(heap[s.rcv.file.value], block);
                  b.filesize == heap[s.rcv.file.value].filesize
                  && OnBlock(s, heap) ==
                     Effect(s.(net := n, rcv := if b.rcvsize >= b.filesize
                                                then TransferSystem.Post(r, ReceiveComplete) else r),
                            heap[s.rcv.file.value := b], None))
            else
              OnBlock(s, heap) == Effect(s.(net := n, rcv := if s.rcv.state == Waiting
                                                             then TransferSystem.Post(r, NetworkReceive) else r),
                                         heap, None)
  {
    hide TransferSystem.Post, HasRoom;
    var block := s.net.up[0];
    assert block[..ReadCount(|block|, TCP_PACK_SIZE, 0)] == block;
  }

  ghost predicate OneBuffer(s: Session, heap: seq<Buffer>) {
    |heap| <= 1 && s.rcv.file == (if heap == [] then None else Some(0))
    && (forall b :: b in heap ==> |b.filedata| == b.filesize)
  }

  lemma HeaderRunsThrough(s: Session, heap: seq<Buffer>, useCount: nat, memory: seq<char>, m: Message, now: string)
    requires s.rcv.linked && s.rcv.handler.Idle? && !s.rcv.fault && OneBuffer(s, heap)
    requires ReadHeader(s.rcv.block) == FileTransfer.Read(Resolved(m)) && m.typ == "fileinfo" && m.fields.FileInfo?
    requires |memory| == m.fields.filesize
    ensures var held := if heap == [] then None else Some(heap[0]);
            var e := BeginHeader(s, heap, useCount, memory);
            var f := Finish(e.s, now);
            !e.s.rcv.fault && Validates(f.rcv, e.heap)
            && e.heap[f.rcv.file.value] == PrepareBuffer(Reuses(useCount, held, m.fields.filesize), held, m, memory)
            && f == s.(net := Say(s.net, Ready, now), rcv := s.rcv.(state := Ready, file := f.rcv.file))
  {
    hide ReadHeader, Finish, Say;
    FinishPrepared(BeginHeader(s, heap, useCount, memory).s, now);
  }

  /** Headers that announce nothing. */
  lemma HeaderElse(s: Session, heap: seq<Buffer>, useCount: nat, memory: seq<char>, now: string)
    requires s.rcv.linked && s.rcv.handler.Idle? && !s.rcv.fault && OneBuffer(s, heap)
    requires ReadHeader(s.rcv.block).Read? && memory == []
    requires var o := ReadHeader(s.rcv.block).outcome;
             o.Resolved? && o.m.typ == "fileinfo" && o.m.fields.FileInfo? ==> o.m.fields.filesize < 0
    ensures var e, o := BeginHeader(s, heap, useCount, memory), ReadHeader(s.rcv.block).outcome;
            e.s.rcv.fault == (o.Throws? || (o.Resolved? && o.m.typ == "fileinfo" && o.m.fields.FileInfo?))
            && (!e.s.rcv.fault ==> e.heap == heap)
            && (!e.s.rcv.fault ==> Seen(Finish(e.s, now)) == Finish(e.s, now))
            && (!e.s.rcv.fault ==>
                  Finish(e.s, now) == if o.Null? then s.(net := s.net.(up := [], broken := true)) else s)
  {
    hide ReadHeader, PrepareBuffer;
  }

  class FileReceiver {
    var state: RState
    var fileptr: FileInfo?
    var tcp: Client?
    const bufrcv: array<char>
    const mq: MessageQueue.Queue
    const coder: Coder
    const writer: FileWriter.Writer<FileInfo>
    ghost var handed: seq<File>
    ghost var taken: seq<bool>

    ghost predicate Valid()
      reads this, bufrcv, mq, coder, coder.buff, writer, fileptr, tcp, if tcp == null then {} else {tcp.bufrcv}
    {
      && bufrcv.Length == TCP_PACK_SIZE && bufrcv != coder.buff && coder.Valid() && writer.Valid()
      && mq.Valid() && KnownMessages(mq.state.posted) && OnlyQuit(mq.state.sent)
      && (mq.live ==> mq.registered == HANDLERS)
      && (tcp != null ==> tcp.Valid() && !tcp.usebuf && tcp.bufrcv != bufrcv && tcp.bufrcv != coder.buff)
      && (fileptr != null ==>
            fileptr.Valid() && fileptr.filedata != bufrcv && fileptr.filedata != coder.buff
            && (tcp != null ==> fileptr.filedata != tcp.bufrcv))
    }

    /** This end of the connection as the system sees it, `up` being on its way. */
    ghost function Here(up: seq<seq<char>>): Session
      reads this, mq, fileptr, tcp, if tcp == null then {} else {tcp.bufrcv}
      requires tcp != null ==> tcp.bytercv <= tcp.bufrcv.Length
    {
      Session(Peer([], 0, SendsHeader),
              Net(up, if tcp == null then [] else tcp.wire, tcp != null && !tcp.connected, false),
              Receiver(state, if fileptr == null then None else Some(0), tcp != null,
                       if tcp == null then [] else tcp.Visible(),
                       Msgs(MessageQueue.Of(mq.state.queue, MessageQueue.LOW)), Idle,
                       mq.state.sent != [], mq.state.exited, Msgs(mq.state.posted), handed, taken, false))
    }

    /** The one buffer this end refers to. */
    ghost function Heap(): seq<Buffer>
      reads this, fileptr, if fileptr == null then {} else {fileptr.filedata}
    {
      if fileptr == null then [] else [fileptr.Value()]
    }

    /** The object is in the state `s` over `heap`, as far as this end can see. */
    ghost predicate Shows(s: Session, heap: seq<Buffer>)
      reads this, mq, fileptr, tcp, if tcp == null then {} else {tcp.bufrcv},
            if fileptr == null then {} else {fileptr.filedata}
      requires tcp != null ==> tcp.bytercv <= tcp.bufrcv.Length
    {
      && Here(s.net.up) == Seen(s)
      && Heap() == if Validates(s.rcv, heap) then [heap[s.rcv.file.value]] else []
    }

    constructor (fwptr: FileWriter.Writer<FileInfo>)
      requires fwptr.Valid()
      ensures Valid() && writer == fwptr && state == Waiting && fileptr == null && tcp == null
      ensures fresh(bufrcv) && fresh(mq) && fresh(coder) && fresh(coder.buff)
      ensures !mq.live && mq.state == MessageQueue.START && mq.registered == map[] && handed == [] && taken == []
    {
      writer, state, fileptr, tcp, handed, taken := fwptr, Waiting, null, null, [], [];
      bufrcv := new char[TCP_PACK_SIZE];
      mq := new MessageQueue.Queue();
      coder := new Coder();
    }

    /** Registers the handlers, starts the message thread and takes the connection; without a message
        queue the connection is left alone. */
    method CoupleNetwork(client: Client, creates: bool) returns (ok: bool)
      requires Valid() && tcp == null && fileptr == null && state == Waiting
      requires !mq.live && mq.registered == map[] && handed == [] && taken == []
      requires client.Valid() && !client.usebuf && client.bytercv == 0 && client.connected
      requires client.bufrcv != bufrcv && client.bufrcv != coder.buff && client.wire == []
      modifies this`tcp, mq
      ensures Valid() && ok == mq.live == creates
      ensures if ok then tcp == client && Here([]) == StartSession([]) else tcp == null
    {
      hide MessageQueue.Invariant, SendInvariant, ValidSlots;
      ok := mq.RegisterMessage(MSG_NETWORK_RECEIVE, ON_NETWORK_RECEIVE);
      assert mq.registered == map[MSG_NETWORK_RECEIVE := [ON_NETWORK_RECEIVE]];
      ok := mq.RegisterMessage(MSG_NETWORK_CLOSE, ON_NETWORK_CLOSE);
      ok := mq.RegisterMessage(MSG_RECEIVE_COMPLETE, ON_RECEIVE_COMPLETE);
      assert mq.registered == HANDLERS;
      ok := mq.Start(creates);
      if ok { tcp := client; }
    }

    method Post(id: int)
      requires Valid() && mq.live && |mq.state.queue| < MessageQueue.MQ_CAPACITY
      requires id in {MSG_NETWORK_RECEIVE, MSG_NETWORK_CLOSE, MSG_RECEIVE_COMPLETE}
      modifies mq`state
      ensures Valid()
      ensures var s := old(Here([])); Here([]) == s.(rcv := TransferSystem.Post(s.rcv, MsgOf(id)))
      ensures mq.state.posted == old(mq.state.posted) + [MessageQueue.Entry(id, 0, 0, MessageQueue.LOW)]
    {
      hide MessageQueue.Of, SendInvariant, ValidSlots, Msgs, OnlyQuit;
      ghost var q, e := mq.state, MessageQueue.Entry(id, 0, 0, MessageQueue.LOW);
      MessageQueue.InsertOrder(q.queue, e);
      MsgsAppend(MessageQueue.Of(q.queue, MessageQueue.LOW), e);
      MsgsAppend(q.posted, e);
      hide MessageQueue.Invariant;
      mq.PostMessage(id, 0, 0);
    }

    /** A block of file data goes into the buffer. */
    method TakeBlock() returns (done: bool)
      requires Valid() && tcp != null && fileptr != null
      requires HasRoom(fileptr.Value(), tcp.Visible())
      modifies tcp, bufrcv, fileptr, fileptr.filedata
      ensures Valid() && Here([]) == old(Here([]))
      ensures Heap() == [FileTransfer.DataArrive(old(fileptr.Value()), old(tcp.Visible()))]
      ensures done <==> fileptr.Value().rcvsize >= fileptr.Value().filesize
      ensures fileptr.rcvsize == old(fileptr.rcvsize) + |old(tcp.Visible())|
      ensures fileptr.filedata[old(fileptr.rcvsize)..fileptr.rcvsize] == old(tcp.Visible())
    {
      hide MessageQueue.Invariant, MessageQueue.Of, KnownMessages, OnlyQuit, SendInvariant, ValidSlots, Msgs;
      ghost var block := tcp.Visible();
      var n := tcp.Read(bufrcv, TCP_PACK_SIZE, 0);
      assert bufrcv[..n] == block;
      done := fileptr.DataArrive(bufrcv, n);
    }

    /** The read callback. The block in the connection's buffer is the one that just arrived. */
    method NetworkReceive(ec: int)
      requires Valid() && mq.live && |mq.state.queue| < MessageQueue.MQ_CAPACITY
      requires ec == 0 ==> tcp != null && !OnBlock(Here([tcp.Visible()]), Heap()).s.rcv.fault
      modifies mq`state, tcp, bufrcv, fileptr, if fileptr == null then {} else {fileptr.filedata}
      ensures Valid()
      ensures ec == 0 ==> var e := old(OnBlock(Here([tcp.Visible()]), Heap())); Shows(e.s, e.heap)
      ensures ec != 0 ==>
                var s := old(Here([])); Shows(s.(rcv := TransferSystem.Post(s.rcv, NetworkClose)), old(Heap()))
      ensures ec == 0 && state == Ready ==>
                fileptr != null && fileptr.rcvsize == old(fileptr.rcvsize) + |old(tcp.Visible())|
      ensures var id := if ec != 0 then Some(MSG_NETWORK_CLOSE)
                        else if state == Waiting then Some(MSG_NETWORK_RECEIVE)
                        else if state == Ready && fileptr != null && fileptr.rcvsize >= fileptr.filesize
                        then Some(MSG_RECEIVE_COMPLETE)
                        else None;
              mq.state.posted == old(mq.state.posted)
                                 + if id.Some? then [MessageQueue.Entry(id.value, 0, 0, MessageQueue.LOW)] else []
    {
      hide MessageQueue.Invariant, MessageQueue.Of, KnownMessages, OnlyQuit, SendInvariant, ValidSlots, Msgs,
        DataArrive, OnBlock, TransferSystem.Post, HasRoom, Seen;
      if ec == 0 {
        assert [tcp.Visible()][1..] == [];
        BlockCases(Here([tcp.Visible()]), Heap());
      }
      if ec != 0 {
        Post(MSG_NETWORK_CLOSE);
      } else if state == Ready {
        var done := TakeBlock();
        if done { Post(MSG_RECEIVE_COMPLETE); }
      } else if state == Waiting {
        Post(MSG_NETWORK_RECEIVE);
      }
      SeenIs(Here([]));
    }

    /** CompactFileStat, and the text at the address it returns. */
    method StatusText(status: RState, now: string) returns (text: string)
      requires coder.Valid() && |StatusLine(StatusCode(status), now)| < SLOT_SIZE
      modifies coder, coder.buff
      ensures coder.Valid() && text == StatusLine(StatusCode(status), now) && text != ""
    {
      hide Compact;
      var slot, n := coder.CompactMessage(FileStatMessage(StatusCode(status)), now);
      var at := slot * SLOT_SIZE;
      text := coder.buff[at..at + n];
      assert text == coder.buff[..][at..(slot + 1) * SLOT_SIZE][..n];
    }

    /** Sets the state and tells the client. The socket takes the whole line. */
    method NotifyStatus(status: RState, now: string)
      requires Valid() && tcp != null && |StatusLine(StatusCode(status), now)| < SLOT_SIZE
      modifies this`state, tcp, coder, coder.buff
      ensures Valid() && Heap() == old(Heap()) && tcp.connected == old(tcp.connected)
      ensures var s := old(Here([]));
              Here([]) == s.(net := Say(s.net, status, now), rcv := s.rcv.(state := status))
      ensures Lacks(now, NUL) ==> tcp.wire == old(tcp.wire) + ["filestat utc=" + now + StatusEnd(status)]
    {
      hide MessageQueue.Invariant, MessageQueue.Of, KnownMessages, OnlyQuit, SendInvariant, ValidSlots, Msgs,
        StatusLine;
      if Lacks(now, NUL) { StatusTexts(status, now); }
      state := status;
      var tosend := StatusText(status, now);
      var n := tcp.Write(tosend, |tosend|);
      assert tosend[..n] == tosend;
    }

    /** The call of NewFile. */
    method HandOver()
      requires Valid() && fileptr != null
      modifies this`handed, this`taken, writer`quenf, writer`accepted
      ensures Valid() && Heap() == old(Heap())
      ensures var s, on := old(Here([])), old(writer.running);
              Here([]) == s.(rcv := s.rcv.(handed := s.rcv.handed + [Content(old(fileptr.Value()))],
                                           taken := s.rcv.taken + [on]))
      ensures writer.quenf == old(writer.quenf) + if old(writer.running) then [fileptr] else []
    {
      hide MessageQueue.Invariant, MessageQueue.Of, KnownMessages, OnlyQuit, SendInvariant, ValidSlots, Msgs;
      handed, taken := handed + [Content(fileptr.Value())], taken + [writer.running];
      writer.NewFile(fileptr);
    }

    /** The verdict goes out, and the next file is awaited. */
    method Report(verdict: RState, now: string)
      requires Valid() && tcp != null && |StatusLine(StatusCode(verdict), now)| < SLOT_SIZE
      modifies this`state, tcp, coder, coder.buff
      ensures Valid() && Heap() == old(Heap()) && tcp.connected == old(tcp.connected)
      ensures var s := old(Here([]));
              Here([]) == s.(net := Say(s.net, verdict, now), rcv := s.rcv.(state := Waiting))
      ensures Lacks(now, NUL) ==> tcp.wire == old(tcp.wire) + ["filestat utc=" + now + StatusEnd(verdict)]
    {
      hide MessageQueue.Invariant, MessageQueue.Of, KnownMessages, OnlyQuit, SendInvariant, ValidSlots, Msgs,
        StatusLine, Say;
      NotifyStatus(verdict, now);
      state := Waiting;
    }

    /** Gives a complete file to the writer and reports the verdict. */
    method OnReceiveComplete(now: string)
      requires Valid() && tcp != null && fileptr != null
      requires |StatusLine(StatusCode(Verdict(fileptr.Value())), now)| < SLOT_SIZE
      modifies this`state, this`handed, this`taken, tcp, coder, coder.buff, writer`quenf, writer`accepted
      ensures Valid()
      ensures var e := old(BeginComplete(Here([]), Heap(), writer.running));
              !e.s.rcv.fault && Shows(Finish(e.s, now), e.heap)
      ensures writer.quenf == old(writer.quenf)
                              + if old(fileptr.filesize == fileptr.rcvsize && writer.running) then [fileptr] else []
      ensures state == Waiting && tcp != null && fileptr == old(fileptr)
      ensures Lacks(now, NUL) ==>
                tcp.wire == old(tcp.wire) + ["filestat utc=" + now
                              + if old(fileptr.filesize == fileptr.rcvsize) then ",status=2\n" else ",status=3\n"]
    {
      hide MessageQueue.Invariant, MessageQueue.Of, KnownMessages, OnlyQuit, SendInvariant, ValidSlots, Msgs,
        StatusLine;
      CompleteRunsThrough(Here([]), fileptr.Value(), writer.running, now);
      hide Finish, Say, Content, BeginComplete, Seen;
      if fileptr.filesize == fileptr.rcvsize {
        HandOver();
        Report(Complete, now);
      } else {
        Report(Failure, now);
      }
    }

    /** Lookup, Read, and the NUL in the place of the newline. */
    method FetchLine()
      requires Valid() && tcp != null && ReadHeader(tcp.Visible()).Read?
      modifies tcp, bufrcv
      ensures Valid() && Here([]) == old(Here([])) && Heap() == old(Heap())
      ensures ReadHeader(old(tcp.Visible())) == FileTransfer.Read(AsciiProtocol.Resolve(CString(bufrcv[..])))
    {
      hide MessageQueue.Invariant, MessageQueue.Of, KnownMessages, OnlyQuit, SendInvariant, ValidSlots, Msgs,
        AsciiProtocol.Resolve, CString, FirstMatch;
      ghost var block := tcp.Visible();
      var pos := tcp.Lookup("\n", 1, 0);
      assert "\n"[..1] == "\n";
      var n := tcp.Read(bufrcv, pos + 1, 0);
      bufrcv[pos] := NUL;
      LineInFront(block, bufrcv[..], pos);
    }

    /** The buffer for an announced file: the one at hand or a new one. `memory` is what it holds. */
    method PrepareFile(m: Message, useCount: nat) returns (ghost memory: seq<char>)
      requires Valid() && m.fields.FileInfo? && m.fields.filesize >= 0
      requires useCount == 0 <==> fileptr == null
      modifies this`fileptr, fileptr
      ensures Valid() && fileptr != null && |memory| == m.fields.filesize
      ensures var held := if old(fileptr) == null then None else Some(old(Heap())[0]);
              var reuse := Reuses(useCount, held, m.fields.filesize);
              fileptr.Value() == PrepareBuffer(reuse, held, m, memory)
              && if reuse then fileptr == old(fileptr) else fresh(fileptr) && fresh(fileptr.filedata)
      ensures fileptr == old(fileptr) <==>
                old(fileptr != null && useCount == 1 && fileptr.filesize == m.fields.filesize)
      ensures fileptr.head == Header(m.gid, m.uid, m.cid, m.fields.tmobs, m.fields.subpath, m.fields.filename)
      ensures fileptr.rcvsize == 0 && fileptr.filesize == m.fields.filesize
      ensures Here([]) == old(Here([])).(rcv := old(Here([])).rcv.(file := Some(0)))
    {
      hide MessageQueue.Invariant, MessageQueue.Of, KnownMessages, OnlyQuit, SendInvariant, ValidSlots, Msgs;
      if useCount == 0 || useCount > 1 || (useCount == 1 && fileptr.filesize != m.fields.filesize) {
        fileptr := new FileInfo(m.fields.filesize);
      }
      memory := fileptr.filedata[..];
      fileptr.head := HeaderOf(m);
      fileptr.rcvsize := 0;
    }

    /** The branch for a file's header; a negative size makes the allocation throw. */
    method AcceptHeader(m: Message, useCount: nat, now: string) returns (threw: bool, ghost memory: seq<char>)
      requires Valid() && tcp != null && ReadHeader(tcp.Visible()) == FileTransfer.Read(Resolved(m))
      requires m.typ == "fileinfo" && m.fields.FileInfo?
      requires useCount == 0 <==> fileptr == null
      requires |StatusLine(StatusCode(Ready), now)| < SLOT_SIZE
      modifies this`state, this`fileptr, tcp, coder, coder.buff, fileptr
      ensures tcp == old(tcp) && Valid()
      ensures threw == (m.fields.filesize < 0)
      ensures !threw ==> state == Ready && tcp.connected == old(tcp.connected)
      ensures !threw && Lacks(now, NUL) ==> tcp.wire == old(tcp.wire) + ["filestat utc=" + now + ",status=1\n"]
      ensures var e := BeginHeader(old(Here([])), old(Heap()), useCount, memory);
              threw == e.s.rcv.fault && (!threw ==> Shows(Finish(e.s, now), e.heap))
      ensures fileptr != old(fileptr) ==> fresh(fileptr)
      ensures fileptr == old(fileptr) && useCount != 1 ==> Heap() == old(Heap())
    {
      hide MessageQueue.Invariant, MessageQueue.Of, KnownMessages, OnlyQuit, SendInvariant, ValidSlots, Msgs,
        StatusLine, ReadHeader, Finish, BeginHeader, Say, Reuses, PrepareBuffer;
      ghost var s, heap := Here([]), Heap();
      memory, threw := [], m.fields.filesize < 0;
      if threw {
        HeaderElse(s, heap, useCount, memory, now);
      } else {
        memory := PrepareFile(m, useCount);
        HeaderRunsThrough(s, heap, useCount, memory, m, now);
        NotifyStatus(Ready, now);
      }
    }

    /** The branches for everything but a file's header: a number that throws, an unknown type, for which
        the connection is closed, and other messages. */
    method RefuseHeader(base: Outcome, ghost plain: Outcome, stod: AsciiDispatch.Stod, useCount: nat, now: string)
        returns (threw: bool)
      requires Valid() && tcp != null && ReadHeader(tcp.Visible()) == FileTransfer.Read(plain)
      requires base == WithErrors(plain, stod)
      requires !(base.Resolved? && base.m.typ == "fileinfo" && base.m.fields.FileInfo?)
      modifies tcp
      ensures Valid() && Heap() == old(Heap())
      ensures tcp.connected == (old(tcp.connected) && !base.Null?) && tcp.wire == old(tcp.wire)
      ensures var e := BeginHeader(old(Here([])), old(Heap()), useCount, []);
              threw == (e.s.rcv.fault || NumberThrows(old(tcp.Visible()), stod))
              && (!threw ==> Shows(Finish(e.s, now), e.heap))
    {
      hide MessageQueue.Invariant, MessageQueue.Of, KnownMessages, OnlyQuit, SendInvariant, ValidSlots, Msgs,
        StatusLine, ReadHeader, Finish, BeginHeader, Seen, PrepareBuffer, Reuses, FirstError;
      HeaderElse(Here([]), Heap(), useCount, [], now);
      threw := base.Throws?;
      if base.Null? {
        var outcome: int := *;
        var _ := tcp.Close(outcome);
      }
    }

    /** Handles a header. `useCount` is fileptr_.use_count(); `threw` says that an exception left the
        handler. A buffer that another owner shares is never touched. */
    method OnNetworkReceive(useCount: nat, now: string, stod: AsciiDispatch.Stod)
        returns (threw: bool, ghost memory: seq<char>)
      requires Valid() && tcp != null && ReadHeader(tcp.Visible()).Read?
      requires useCount == 0 <==> fileptr == null
      requires |StatusLine(StatusCode(Ready), now)| < SLOT_SIZE
      modifies this`state, this`fileptr, tcp, bufrcv, coder, coder.buff, fileptr
      ensures Valid()
      ensures var e := BeginHeader(old(Here([])), old(Heap()), useCount, memory);
              threw == (e.s.rcv.fault || NumberThrows(old(tcp.Visible()), stod))
              && (!threw ==> Shows(Finish(e.s, now), e.heap))
      ensures fileptr != old(fileptr) ==> fresh(fileptr)
      ensures fileptr == old(fileptr) && useCount != 1 ==> Heap() == old(Heap())
    {
      hide MessageQueue.Invariant, MessageQueue.Of, KnownMessages, OnlyQuit, SendInvariant, ValidSlots, Msgs,
        StatusLine, AsciiProtocol.Resolve, ReadHeader, Finish, BeginHeader, CString, Seen, PrepareBuffer, Reuses,
        Shows, FirstError;
      FetchLine();
      var base := coder.Resolve(CString(bufrcv[..]), stod);
      if base.Resolved? && base.m.typ == "fileinfo" && base.m.fields.FileInfo? {
        threw, memory := AcceptHeader(base.m, useCount, now);
      } else {
        memory := [];
        threw := RefuseHeader(base, AsciiProtocol.Resolve(CString(bufrcv[..])), stod, useCount, now);
      }
    }

    method OnNetworkClose()
      requires Valid()
      modifies this`tcp
      ensures Valid() && tcp == null
      ensures var s := old(Here([])); Shows(s.(rcv := s.rcv.(linked := false)), old(Heap()))
    {
      tcp := null;
    }

    method Receive() returns (msg: MessageQueue.Entry)
      requires Valid() && mq.live && !mq.state.exited && mq.state.queue != []
      modifies mq`state, mq`calls
      ensures Valid() && msg == old(mq.state.queue[0])
      ensures var s := old(Here([]));
              if s.rcv.stopping then
                msg.id == MessageQueue.MSG_QUIT && Here([]) == s.(rcv := s.rcv.(exited := true))
              else
                s.rcv.queue != [] && s.rcv.queue[0] == MsgOf(msg.id)
                && msg.id in {MSG_NETWORK_RECEIVE, MSG_NETWORK_CLOSE, MSG_RECEIVE_COMPLETE}
                && Here([]) == s.(rcv := s.rcv.(queue := s.rcv.queue[1..]))
    {
      hide MessageQueue.Invariant, MessageQueue.Of, KnownMessages, OnlyQuit, SendInvariant, ValidSlots, Msgs;
      if mq.state.sent != [] {
        QuitFirst(mq.state);
      } else {
        PostFirst(mq.state);
        MsgsRest(MessageQueue.Of(mq.state.queue, MessageQueue.LOW));
      }
      msg := mq.ReceiveOne();
    }

    /** One turn of the message thread: the next message and its handler, or the end of the loop. */
    method HandleNext(useCount: nat, now: string, stod: AsciiDispatch.Stod)
        returns (threw: bool, ghost memory: seq<char>)
      requires Valid() && mq.live && !mq.state.exited && mq.state.queue != []
      requires useCount == 0 <==> fileptr == null
      requires mq.state.queue[0].id == MSG_NETWORK_RECEIVE ==> tcp != null && ReadHeader(tcp.Visible()).Read?
      requires mq.state.queue[0].id == MSG_RECEIVE_COMPLETE ==> tcp != null && fileptr != null
      requires forall status: RState :: |StatusLine(StatusCode(status), now)| < SLOT_SIZE
      modifies this, mq`state, mq`calls, tcp, bufrcv, coder, coder.buff, fileptr, writer`quenf, writer`accepted
      ensures Valid()
      ensures var e := OnDequeue(old(Here([])), old(Heap()), useCount, old(writer.running), memory);
              threw == (e.s.rcv.fault
                        || old(mq.state.queue[0].id == MSG_NETWORK_RECEIVE && NumberThrows(tcp.Visible(), stod)))
              && (!threw ==> Shows(Finish(e.s, now), e.heap))
      ensures writer.quenf == old(writer.quenf) + if old(mq.state.queue[0].id == MSG_RECEIVE_COMPLETE
                && fileptr.filesize == fileptr.rcvsize && writer.running) then [fileptr] else []
    {
      hide MessageQueue.Invariant, MessageQueue.Of, KnownMessages, OnlyQuit, SendInvariant, ValidSlots, Msgs,
        StatusLine, ReadHeader, Finish, BeginHeader, BeginComplete, NumberThrows;
      var msg := Receive();
      threw, memory := false, [];
      ghost var s := Here([]);
      IdleRunsThrough(s, now);
      IdleRunsThrough(s.(rcv := s.rcv.(linked := false)), now);
      var slots := MessageQueue.Slots(mq.registered, msg.id);
      HandlerOf(msg.id);
      if slots == [ON_NETWORK_RECEIVE] { threw, memory := OnNetworkReceive(useCount, now, stod); }
      else if slots == [ON_NETWORK_CLOSE] { OnNetworkClose(); }
      else if slots == [ON_RECEIVE_COMPLETE] { OnReceiveComplete(now); }
    }
  }

  /** Each message has one handler, and QUIT has none. */
  lemma HandlerOf(id: int)
    ensures MessageQueue.Slots(HANDLERS, id) ==
            if id == MSG_NETWORK_RECEIVE then [ON_NETWORK_RECEIVE]
            else if id == MSG_NETWORK_CLOSE then [ON_NETWORK_CLOSE]
            else if id == MSG_RECEIVE_COMPLETE then [ON_RECEIVE_COMPLETE]
            else []
  {
  }

  lemma IdleRunsThrough(s: Session, now: string)
    requires s.rcv.handler.Idle?
    ensures Finish(s, now) == s
  {
  }

  lemma HasMember<T>(q: seq<T>)
    requires q != []
    ensures exists x :: x in q
  {
    assert q[0] in q;
  }

  /** QUIT comes first when Stop has sent it. */
  lemma QuitFirst(q: MessageQueue.State)
    requires MessageQueue.Invariant(q) && !q.exited && q.queue != [] && OnlyQuit(q.sent) && q.sent != []
    ensures q.queue[0].id == MessageQueue.MSG_QUIT
    ensures MessageQueue.Of(q.queue[1..], MessageQueue.LOW) == MessageQueue.Of(q.queue, MessageQueue.LOW)
  {
    MessageQueue.SendsFirst(q);
    var high, sends := MessageQueue.Of(q.queue, MessageQueue.HIGH), MessageQueue.Of(q.handled, MessageQueue.HIGH);
    MessageQueue.OfMembers(q.handled, MessageQueue.HIGH);
    MessageQueue.OfMembers(q.queue, MessageQueue.HIGH);
    assert forall x :: x in q.handled ==> x.id != MessageQueue.MSG_QUIT;
    assert sends + high == q.sent;
    assert forall x :: x in sends ==> x in q.sent;
    assert forall x :: x in q.sent ==> x.id == MessageQueue.MSG_QUIT;
    if sends != [] {
      HasMember(sends);
      assert false;
    }
    assert high[0] == q.sent[|sends|];
  }

  /** Without it the posts come in their order. */
  lemma PostFirst(q: MessageQueue.State)
    requires MessageQueue.Invariant(q) && !q.exited && q.queue != [] && KnownMessages(q.posted) && q.sent == []
    ensures var posts, rest := MessageQueue.Of(q.queue, MessageQueue.LOW), q.queue[1..];
            posts != [] && posts[0] == q.queue[0] && MessageQueue.Of(rest, MessageQueue.LOW) == posts[1..]
    ensures q.queue[0].id in {MSG_NETWORK_RECEIVE, MSG_NETWORK_CLOSE, MSG_RECEIVE_COMPLETE}
  {
    MessageQueue.SendsFirst(q);
    assert q.queue[0] in q.queue && MessageQueue.Of(q.queue, MessageQueue.HIGH) == [];
    var low, posts := MessageQueue.Of(q.queue, MessageQueue.LOW), MessageQueue.Of(q.handled, MessageQueue.LOW);
    assert low != [] ==> low[0] == q.posted[|posts|];
  }

  predicate OnlyQuit(q: seq<MessageQueue.Entry>) {
    forall i :: 0 <= i < |q| ==> q[i].id == MessageQueue.MSG_QUIT
  }

  predicate KnownMessages(q: seq<MessageQueue.Entry>) {
    forall i :: 0 <= i < |q| ==> q[i].id in {MSG_NETWORK_RECEIVE, MSG_NETWORK_CLOSE, MSG_RECEIVE_COMPLETE}
  }
}
