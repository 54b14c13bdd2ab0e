/** What every reachable state of the transfer system satisfies. */
module TransferSafety {
  import opened Text
  import opened AsciiProtocol
  import opened TcpClient
  import opened FileTransfer
  import opened TransferSystem

  /* ---------- where one connection stands ---------- */

  /** The joint phase of client, network, queue and handler for the file in progress. `Lost` is a
      header that arrived while `state_` was COMPLETE and was ignored. */
  datatype Phase =
    | Rest | HeaderUp | HeaderPosted | Lost | Preparing | Announcing | ReadyDown
    | Streaming | Full | Storing | Marking | CompleteDown

  function PhaseOf(s: Session): Phase {
    var r := s.rcv;
    match s.client.phase
    case SendsHeader => Rest
    case AwaitsReady =>
      if r.handler.Prepared? then Preparing
      else if r.handler.Announced? then Announcing
      else if r.state == Ready then ReadyDown
      else if r.queue != [] && r.queue[0] == NetworkReceive then HeaderPosted
      else if s.net.up != [] then HeaderUp
      else Lost
    case Sends(_) => Streaming
    case AwaitsComplete =>
      if r.handler.Stored? then Storing
      else if r.handler.Marked? then Marking
      else if |r.handed| > s.client.done then CompleteDown
      else if r.queue != [] && r.queue[0] == ReceiveComplete then Full
      else Streaming
  }

  predicate Blocks(up: seq<seq<char>>) {
    forall i :: 0 <= i < |up| ==> 0 < |up[i]| <= TCP_PACK_SIZE
  }

  /** The buffer in use holds the first `rcv` bytes of `f`. */
  predicate Holds(heap: seq<Buffer>, file: Option<nat>, f: File, rcv: nat) {
    file.Some? && file.value < |heap|
    && (var b := heap[file.value];
        b.head == f.head && b.filesize == |f.data| == |b.filedata| && b.rcvsize == rcv <= |f.data|
        && b.filedata[..rcv] == f.data[..rcv])
  }

  function Received(heap: seq<Buffer>, file: Option<nat>): int {
    if file.Some? && file.value < |heap| then heap[file.value].rcvsize else 0
  }

  /** The message the receiver owes itself, before a pending close. */
  function Owed(ph: Phase): seq<Msg> {
    match ph
    case HeaderPosted => [NetworkReceive]
    case Full => [ReceiveComplete]
    case _ => []
  }

  predicate QueueFits(ph: Phase, s: Session) {
    && s.rcv.queue == Owed(ph) + (if s.net.closed && s.rcv.linked then [NetworkClose] else [])
    && (!s.rcv.linked ==> Owed(ph) == [])
  }

  /** A settled receiver: idle, or about to clear `state_` after reporting COMPLETE. */
  predicate Settled(r: Receiver) {
    (r.handler.Idle? && r.state == Waiting) || (r.handler.Reported? && r.state == Complete)
  }

  ghost predicate IsHeader(block: seq<char>, f: File) {
    exists now :: GoodTag(now) && block == HeaderLine(f, now)
  }

  predicate DownIs(n: Net, status: int) {
    n.broken || (|n.down| == 1 && StatusOf(n.down[0]) == Some(status))
  }

  predicate DownEmpty(n: Net) {
    n.broken || n.down == []
  }

  /** Channels, handler and buffer in each phase. */
  ghost predicate PhaseHolds(ph: Phase, s: Session, heap: seq<Buffer>)
    requires ph == Rest || s.client.done < |s.client.files|
  {
    var c, n, r := s.client, s.net, s.rcv;
    match ph
    case Rest => Settled(r) && n.up == [] && DownEmpty(n)
    case HeaderUp => Settled(r) && |n.up| == 1 && IsHeader(n.up[0], Current(s)) && DownEmpty(n)
    case HeaderPosted =>
      r.handler.Idle? && r.state == Waiting && n.up == [] && IsHeader(r.block, Current(s)) && DownEmpty(n)
    case Lost => Settled(r) && n.up == [] && DownEmpty(n)
    case Preparing =>
      r.handler.Prepared? && r.state == Waiting && n.up == [] && Holds(heap, r.file, Current(s), 0) && DownEmpty(n)
    case Announcing =>
      r.handler.Announced? && r.state == Ready && n.up == [] && Holds(heap, r.file, Current(s), 0) && DownEmpty(n)
    case ReadyDown =>
      r.handler.Idle? && r.state == Ready && n.up == [] && Holds(heap, r.file, Current(s), 0) && DownIs(n, 1)
    case Streaming =>
      r.handler.Idle? && r.state == Ready && DownEmpty(n)
      && (var rcv := Received(heap, r.file);
          0 <= rcv < |Current(s).data| && Holds(heap, r.file, Current(s), rcv)
          && rcv <= Sent(s) <= |Current(s).data| && (c.phase.Sends? ==> Sent(s) < |Current(s).data|)
          && Continues(n.up, Current(s), rcv, Sent(s), n.broken))
    case Full =>
      r.handler.Idle? && r.state == Ready && n.up == [] && DownEmpty(n)
      && Holds(heap, r.file, Current(s), |Current(s).data|)
    case Storing => r.handler == Stored(Complete) && r.state == Ready && n.up == [] && DownEmpty(n)
    case Marking => r.handler == Marked(Complete) && r.state == Complete && n.up == [] && DownEmpty(n)
    case CompleteDown => Settled(r) && n.up == [] && DownIs(n, 2)
  }

  predicate ClientAt(ph: Phase, c: CPhase) {
    match ph
    case Rest => c.SendsHeader?
    case Streaming => c.Sends? || c.AwaitsComplete?
    case Full => c.AwaitsComplete?
    case Storing => c.AwaitsComplete?
    case Marking => c.AwaitsComplete?
    case CompleteDown => c.AwaitsComplete?
    case _ => c.AwaitsReady?
  }

  /** The bytes under way continue what has been received. */
  predicate Continues(up: seq<seq<char>>, f: File, rcv: int, sent: int, broken: bool)
    requires 0 <= rcv <= sent <= |f.data|
  {
    if broken then Concat(up) <= f.data[rcv..sent] else Concat(up) == f.data[rcv..sent]
  }

  function Sent(s: Session): int
    requires s.client.done < |s.client.files|
  {
    if s.client.phase.Sends? then s.client.phase.off else |Current(s).data|
  }

  /** Whether the file in progress has been handed to the writer. */
  function InProgressStored(ph: Phase): nat {
    match ph
    case Storing => 1
    case Marking => 1
    case CompleteDown => 1
    case _ => 0
  }

  /** The files handed over are the first `k` of the client's. */
  predicate HandedFits(k: nat, files: seq<File>, handed: seq<File>, taken: seq<bool>) {
    k <= |files| && handed == files[..k] && |taken| == k
  }

  /** NetworkClose is posted at most once, as the last message, when the error was reported. */
  predicate CloseIsLast(posted: seq<Msg>, closed: bool) {
    && (forall i :: 0 <= i < |posted| && posted[i] == NetworkClose ==> i == |posted| - 1)
    && (closed <==> posted != [] && posted[|posted|-1] == NetworkClose)
  }

  predicate ClientFits(ph: Phase, c: Peer) {
    && GoodFiles(c.files) && c.done <= |c.files|
    && ClientAt(ph, c.phase)
    && (ph != Rest ==> c.done < |c.files|)
  }

  predicate LinkFits(s: Session, heapSize: nat) {
    && CloseIsLast(s.rcv.posted, s.net.closed)
    && Blocks(s.net.up)
    && (s.net.closed ==> s.net.broken && s.net.up == [])
    && (!s.rcv.linked ==> s.net.closed && s.rcv.handler.Idle?)
    && (s.rcv.file.Some? ==> s.rcv.file.value < heapSize)
    && !s.rcv.fault
  }

  ghost predicate InvAt(ph: Phase, s: Session, heap: seq<Buffer>) {
    && ClientFits(ph, s.client)
    && HandedFits(s.client.done + InProgressStored(ph), s.client.files, s.rcv.handed, s.rcv.taken)
    && PhaseHolds(ph, s, heap)
    && QueueFits(ph, s)
    && LinkFits(s, |heap|)
  }

  /** The invariant of one connection. */
  ghost predicate SessionInv(s: Session, heap: seq<Buffer>) {
    InvAt(PhaseOf(s), s, heap)
  }

  /** The phase can be read off the state. */
  lemma PhaseIs(ph: Phase, s: Session, heap: seq<Buffer>)
    requires InvAt(ph, s, heap)
    ensures PhaseOf(s) == ph && SessionInv(s, heap)
  {
    hide IsHeader, GoodFiles, Concat, Holds, CloseIsLast, StatusOf, Blocks, Continues;
  }

  /* ---------- one step of one connection ---------- */

  lemma {:induction false} ConcatPrefix(up: seq<seq<char>>, keep: nat)
    requires keep <= |up|
    ensures Concat(up[..keep]) <= Concat(up)
  {
    if keep > 0 {
      ConcatPrefix(up[1..], keep - 1);
      assert up[..keep][1..] == up[1..][..keep - 1];
    }
  }

  lemma ConcatLength(up: seq<seq<char>>)
    requires Blocks(up)
    ensures |Concat(up)| >= |up|
  {
  }

  lemma DataArriveHolds(heap: seq<Buffer>, file: Option<nat>, f: File, rcv: nat, bytes: seq<char>)
    requires Holds(heap, file, f, rcv) && rcv + |bytes| <= |f.data| && bytes == f.data[rcv..rcv + |bytes|]
    ensures HasRoom(heap[file.value], bytes)
    ensures Holds(heap[file.value := DataArrive(heap[file.value], bytes)], file, f, rcv + |bytes|)
  {
    var b := DataArrive(heap[file.value], bytes);
    assert b.filedata[..rcv + |bytes|] == f.data[..rcv] + bytes == f.data[..rcv + |bytes|];
  }

  lemma FirstBlock(up: seq<seq<char>>, f: File, rcv: int, sent: int, broken: bool)
    requires 0 <= rcv <= sent <= |f.data| && Continues(up, f, rcv, sent, broken) && Blocks(up) && up != []
    ensures rcv + |up[0]| <= sent && up[0] == f.data[rcv..rcv + |up[0]|]
    ensures Blocks(up[1..]) && Continues(up[1..], f, rcv + |up[0]|, sent, broken)
    ensures rcv + |up[0]| == |f.data| ==> up[1..] == []
  {
    var n := |up[0]|;
    ConcatLength(up[1..]);
    CutPrefix(up[0], Concat(up[1..]), f.data, rcv, sent);
  }

  lemma CutPrefix(first: seq<char>, rest: seq<char>, data: seq<char>, lo: int, hi: int)
    requires 0 <= lo <= hi <= |data| && first + rest <= data[lo..hi]
    ensures lo + |first| <= hi && first == data[lo..lo + |first|] && rest <= data[lo + |first|..hi]
    ensures first + rest == data[lo..hi] ==> rest == data[lo + |first|..hi]
  {
    var all := first + rest;
    assert all[..|first|] == first && all[|first|..] == rest;
    assert data[lo..hi][|first|..] == data[lo + |first|..hi];
    assert data[lo..hi][..|first|] == data[lo..lo + |first|];
  }

  lemma DeliverStreaming(s: Session, heap: seq<Buffer>)
    requires s.net.up != []
    requires InvAt(Streaming, s, heap) && Enabled(s, Deliver)
    ensures var o := OnBlock(s, heap);
            InvAt(if Received(o.heap, s.rcv.file) == |Current(s).data| then Full else Streaming, o.s, o.heap)
    ensures OnBlock(s, heap).stored == None
    ensures Validates(s.rcv, heap) && HasRoom(heap[s.rcv.file.value], s.net.up[0])
    ensures OnBlock(s, heap).heap == heap[s.rcv.file.value := DataArrive(heap[s.rcv.file.value], s.net.up[0])]
  {
    hide Concat, Continues, IsHeader, GoodFiles, DataArrive, CloseIsLast, HandedFits, StatusOf, OnBlock;
    var block, f, rcv := s.net.up[0], Current(s), Received(heap, s.rcv.file);
    FirstBlock(s.net.up, f, rcv, Sent(s), s.net.broken);
    DataArriveHolds(heap, s.rcv.file, f, rcv, block);
    BlockTaken(s, heap);
    hide InvAt;
    var o := OnBlock(s, heap);
    if rcv + |block| == |f.data| {
      FullInv(s, o.s, heap, o.heap, block);
    } else {
      StillStreaming(s, o.s, heap, o.heap, block, rcv);
    }
  }

  /** What OnBlock does with data that fits. */
  lemma BlockTaken(s: Session, heap: seq<Buffer>)
    requires s.net.up != [] && |s.net.up[0]| <= TCP_PACK_SIZE && s.rcv.state == Ready && s.rcv.linked
    requires Validates(s.rcv, heap) && HasRoom(heap[s.rcv.file.value], s.net.up[0])
    ensures var block := s.net.up[0];
            var b := DataArrive(heap[s.rcv.file.value], block);
            var r := s.rcv.(block := block);
            OnBlock(s, heap) == Effect(s.(net := s.net.(up := s.net.up[1..]),
                                          rcv := if b.rcvsize >= b.filesize then Post(r, ReceiveComplete) else r),
                                       heap[s.rcv.file.value := b], None)
            && b.rcvsize == heap[s.rcv.file.value].rcvsize + |block| && b.filesize == heap[s.rcv.file.value].filesize
  {
    hide Post;
    assert s.net.up[0][..|s.net.up[0]|] == s.net.up[0];
  }

  lemma FullInv(s: Session, t: Session, heap: seq<Buffer>, heap': seq<Buffer>, block: seq<char>)
    requires InvAt(Streaming, s, heap) && |heap'| == |heap| && !s.net.closed && |s.net.up| == 1
    requires t == s.(net := s.net.(up := []), rcv := Post(s.rcv.(block := block), ReceiveComplete))
    requires Holds(heap', s.rcv.file, Current(s), |Current(s).data|) && s.client.phase.AwaitsComplete?
    ensures InvAt(Full, t, heap')
  {
    hide Concat, Continues, IsHeader, GoodFiles, Holds;
  }

  lemma StillStreaming(s: Session, t: Session, heap: seq<Buffer>, heap': seq<Buffer>, block: seq<char>, rcv: int)
    requires InvAt(Streaming, s, heap) && |heap'| == |heap| && s.net.up != [] && !s.net.closed
    requires t == s.(net := s.net.(up := s.net.up[1..]), rcv := s.rcv.(block := block))
    requires 0 <= rcv + |block| < |Current(s).data| && Holds(heap', s.rcv.file, Current(s), rcv + |block|)
    requires rcv + |block| <= Sent(s) && Blocks(s.net.up[1..])
    requires Continues(s.net.up[1..], Current(s), rcv + |block|, Sent(s), s.net.broken)
    ensures InvAt(Streaming, t, heap')
  {
    hide Concat, Continues, IsHeader, GoodFiles, Blocks, CloseIsLast;
  }

  lemma DeliverHeader(s: Session, heap: seq<Buffer>)
    requires s.net.up != []
    requires InvAt(HeaderUp, s, heap) && Enabled(s, Deliver)
    ensures OnBlock(s, heap).heap == heap && OnBlock(s, heap).stored == None
    ensures InvAt(if s.rcv.state == Complete then Lost else HeaderPosted, OnBlock(s, heap).s, heap)
  {
    hide IsHeader, GoodFiles, Concat, Holds, StatusOf, HandedFits;
    PostOther(s.rcv.posted, s.net.closed, NetworkReceive);
    hide CloseIsLast;
  }

  lemma PostOther(posted: seq<Msg>, closed: bool, m: Msg)
    requires CloseIsLast(posted, closed) && !closed && m != NetworkClose
    ensures CloseIsLast(posted + [m], closed)
  {
  }

  lemma OnlyHeaderOrData(ph: Phase, s: Session, heap: seq<Buffer>)
    requires InvAt(ph, s, heap) && s.net.up != []
    ensures ph in {HeaderUp, Streaming} && s.client.done < |s.client.files|
  {
    hide IsHeader, Holds, GoodFiles, Continues;
  }

  lemma SendHeaderKeeps(ph: Phase, s: Session, heap: seq<Buffer>, now: string)
    requires InvAt(ph, s, heap) && Enabled(s, SendHeader(now))
    ensures InvAt(HeaderUp, Step(s, heap, 0, false, SendHeader(now)).s, heap)
  {
    hide IsHeader, Sendable, HeaderLine, GoodFiles, CloseIsLast, Holds, Continues, Concat, HandedFits, StatusOf;
    var line := HeaderLine(Current(s), now);
    SendableIsHeader(Current(s), now);
    assert ph == Rest && s.net.up + [line] == [line];
    HeaderSent(s, heap, line);
  }

  lemma SendableIsHeader(f: File, now: string)
    requires Sendable(f, now)
    ensures var line := HeaderLine(f, now); 0 < |line| <= TCP_PACK_SIZE && IsHeader(line, f)
  {
    HeaderHasOneNewline(f, now);
    hide HeaderLine, GoodTag, GoodFile;
  }

  lemma HeaderSent(s: Session, heap: seq<Buffer>, line: string)
    requires InvAt(Rest, s, heap) && s.client.done < |s.client.files| && !s.net.broken
    requires 0 < |line| <= TCP_PACK_SIZE && IsHeader(line, Current(s))
    ensures InvAt(HeaderUp, s.(client := s.client.(phase := AwaitsReady), net := s.net.(up := [line])), heap)
  {
    hide IsHeader, GoodFiles, CloseIsLast, Holds, Continues, Concat;
  }

  lemma SendDataKeeps(ph: Phase, s: Session, heap: seq<Buffer>, n: nat)
    requires InvAt(ph, s, heap) && Enabled(s, SendData(n))
    ensures InvAt(Streaming, Step(s, heap, 0, false, SendData(n)).s, heap)
  {
    hide IsHeader, GoodFiles, CloseIsLast, HandedFits, Concat, StatusOf, Holds;
    var f, off, rcv := Current(s), s.client.phase.off, Received(heap, s.rcv.file);
    assert ph == Streaming;
    BlockSent(s.net.up, f, rcv, off, n);
  }

  lemma BlockSent(up: seq<seq<char>>, f: File, rcv: int, off: nat, n: nat)
    requires 0 <= rcv <= off && off + n <= |f.data| && Continues(up, f, rcv, off, false)
    ensures Continues(up + [f.data[off..off + n]], f, rcv, off + n, false)
  {
    ConcatAppend(up, f.data[off..off + n]);
    assert f.data[rcv..off] + f.data[off..off + n] == f.data[rcv..off + n];
  }

  lemma ReadReady(s: Session, heap: seq<Buffer>)
    requires s.net.down != []
    requires InvAt(ReadyDown, s, heap) && Enabled(s, ReadStatus)
    ensures InvAt(Streaming, OnStatus(s), heap)
  {
    hide StatusOf, IsHeader, GoodFiles, CloseIsLast, Holds, HandedFits, Blocks, Concat;
    HasData(s.client.files, s.client.done);
    NothingSent(Current(s));
    assert s.net.down[1..] == [];
    assert OnStatus(s) == s.(net := s.net.(down := []), client := s.client.(phase := Sends(0)));
    hide OnStatus, InvAt;
    StreamBegins(s, heap);
  }

  lemma HasData(files: seq<File>, i: nat)
    requires GoodFiles(files) && i < |files|
    ensures 0 < |files[i].data|
  {
  }

  lemma NothingSent(f: File)
    ensures Concat([]) == f.data[0..0]
  {
  }

  lemma StreamBegins(s: Session, heap: seq<Buffer>)
    requires InvAt(ReadyDown, s, heap) && !s.net.broken && 0 < |Current(s).data| && Concat([]) == Current(s).data[0..0]
    ensures InvAt(Streaming, s.(net := s.net.(down := []), client := s.client.(phase := Sends(0))), heap)
  {
    hide IsHeader, StatusOf, GoodFiles, CloseIsLast, Concat, Blocks;
  }

  lemma ReadComplete(s: Session, heap: seq<Buffer>)
    requires s.net.down != []
    requires InvAt(CompleteDown, s, heap) && Enabled(s, ReadStatus)
    ensures InvAt(Rest, OnStatus(s), heap)
  {
    hide IsHeader, StatusOf, GoodFiles, CloseIsLast, Holds, Continues, Concat;
  }

  lemma ReadStatusKeeps(ph: Phase, s: Session, heap: seq<Buffer>)
    requires s.net.down != []
    requires InvAt(ph, s, heap) && Enabled(s, ReadStatus)
    ensures ph in {ReadyDown, CompleteDown}
    ensures InvAt(if ph == ReadyDown then Streaming else Rest, OnStatus(s), heap)
  {
    assert ph in {ReadyDown, CompleteDown};
    hide InvAt;
    if ph == ReadyDown { ReadReady(s, heap); } else { ReadComplete(s, heap); }
  }

  lemma BreakKeeps(ph: Phase, s: Session, heap: seq<Buffer>, keep: nat)
    requires InvAt(ph, s, heap) && Enabled(s, Break(keep))
    ensures InvAt(if ph == HeaderUp && keep == 0 then Lost else ph, Step(s, heap, 0, false, Break(keep)).s, heap)
  {
    hide InvAt;
    if ph == Streaming { BreakStreaming(s, heap, keep); }
    else if ph == HeaderUp { BreakHeader(s, heap, keep); }
    else { BreakSilence(ph, s, heap, keep); }
  }

  lemma BreakHeader(s: Session, heap: seq<Buffer>, keep: nat)
    requires InvAt(HeaderUp, s, heap) && Enabled(s, Break(keep))
    ensures InvAt(if keep == 0 then Lost else HeaderUp, Step(s, heap, 0, false, Break(keep)).s, heap)
  {
    hide IsHeader, GoodFiles, CloseIsLast, Holds, StatusOf, HandedFits, Settled;
    assert s.net.up[..keep] == if keep == 0 then [] else s.net.up;
  }

  lemma BreakSilence(ph: Phase, s: Session, heap: seq<Buffer>, keep: nat)
    requires InvAt(ph, s, heap) && Enabled(s, Break(keep)) && ph !in {Streaming, HeaderUp}
    ensures InvAt(ph, Step(s, heap, 0, false, Break(keep)).s, heap)
  {
    hide IsHeader, GoodFiles, CloseIsLast, Holds, StatusOf, HandedFits, Settled, Blocks;
    assert s.net.up[..keep] == s.net.up;
  }

  lemma BreakStreaming(s: Session, heap: seq<Buffer>, keep: nat)
    requires InvAt(Streaming, s, heap) && Enabled(s, Break(keep))
    ensures InvAt(Streaming, Step(s, heap, 0, false, Break(keep)).s, heap)
  {
    hide IsHeader, GoodFiles, CloseIsLast, Concat, Holds, StatusOf, HandedFits, Settled;
    ConcatPrefix(s.net.up, keep);
    assert Continues(s.net.up[..keep], Current(s), Received(heap, s.rcv.file), Sent(s), true);
    hide Continues;
  }

  lemma DeliverErrorKeeps(ph: Phase, s: Session, heap: seq<Buffer>)
    requires InvAt(ph, s, heap) && Enabled(s, DeliverError)
    ensures InvAt(ph, Step(s, heap, 0, false, DeliverError).s, heap)
  {
    hide Concat, Continues, IsHeader, GoodFiles, Holds, StatusOf, HandedFits, CloseIsLast, Blocks, QueueFits, Owed;
    CloseJoins(s.rcv.posted);
    CloseQueues(ph, s);
  }

  lemma CloseQueues(ph: Phase, s: Session)
    requires QueueFits(ph, s) && !s.net.closed && s.rcv.linked
    ensures QueueFits(ph, s.(net := s.net.(closed := true), rcv := Post(s.rcv, NetworkClose)))
  {
  }

  lemma CloseJoins(posted: seq<Msg>)
    requires CloseIsLast(posted, false)
    ensures CloseIsLast(posted + [NetworkClose], true)
  {
  }

  lemma StopKeeps(ph: Phase, s: Session, heap: seq<Buffer>)
    requires InvAt(ph, s, heap) && Enabled(s, Stop)
    ensures InvAt(ph, Step(s, heap, 0, false, Stop).s, heap)
  {
    hide Concat, Continues, IsHeader, GoodFiles, Holds, CloseIsLast, StatusOf;
  }

  lemma StatusLines(now: string)
    requires GoodTag(now)
    ensures StatusOf(StatusLine(StatusCode(Ready), now)) == Some(1)
    ensures StatusOf(StatusLine(StatusCode(Complete), now)) == Some(2)
  {
    hide StatusOf, StatusLine, TimeTag;
    StatusFraming(1, now);
    StatusFraming(2, now);
  }

  function AfterAdvance(ph: Phase): Phase {
    match ph
    case Preparing => Announcing
    case Announcing => ReadyDown
    case Storing => Marking
    case Marking => CompleteDown
    case _ => ph
  }

  lemma AdvanceReceiving(ph: Phase, s: Session, heap: seq<Buffer>, now: string)
    requires InvAt(ph, s, heap) && ph in {Preparing, Announcing} && GoodTag(now)
    ensures InvAt(AfterAdvance(ph), OnAdvance(s, now), heap)
  {
    hide Concat, Continues, IsHeader, StatusOf, StatusLine, GoodFiles, GoodTag, Blocks, CloseIsLast, Holds,
      HandedFits;
    StatusLines(now);
  }

  lemma AdvanceComplete(ph: Phase, s: Session, heap: seq<Buffer>, now: string)
    requires InvAt(ph, s, heap) && ph in {Storing, Marking} && GoodTag(now)
    ensures InvAt(AfterAdvance(ph), OnAdvance(s, now), heap)
  {
    hide Concat, Continues, IsHeader, StatusOf, StatusLine, GoodFiles, GoodTag, Blocks, CloseIsLast, Holds,
      HandedFits;
    StatusLines(now);
  }

  lemma AdvanceReported(ph: Phase, s: Session, heap: seq<Buffer>, now: string)
    requires InvAt(ph, s, heap) && s.rcv.handler.Reported?
    ensures InvAt(ph, OnAdvance(s, now), heap) && AfterAdvance(ph) == ph
  {
    hide Concat, Continues, IsHeader, StatusOf, StatusLine, GoodFiles, Blocks, CloseIsLast, Holds;
  }

  lemma AdvanceKeeps(ph: Phase, s: Session, heap: seq<Buffer>, now: string)
    requires InvAt(ph, s, heap) && Enabled(s, Advance(now))
    ensures InvAt(AfterAdvance(ph), OnAdvance(s, now), heap)
  {
    hide Concat, Continues, IsHeader, StatusOf, GoodFiles, Blocks, CloseIsLast, Holds, OnAdvance, GoodTag;
    if s.rcv.handler.Reported? { AdvanceReported(ph, s, heap, now); }
    else if ph in {Preparing, Announcing} { AdvanceReceiving(ph, s, heap, now); }
    else { AdvanceComplete(ph, s, heap, now); }
  }

  /* ---------- taking a message ---------- */

  /** The header that was posted is the client's, and it is read without leaving the block. */
  lemma PostedHeader(s: Session, heap: seq<Buffer>)
    requires InvAt(HeaderPosted, s, heap)
    ensures exists now :: GoodTag(now) &&
              ReadHeader(s.rcv.block) == Read(Resolved(FileInfoMessage(Current(s)).(utc := now)))
  {
    var now :| GoodTag(now) && s.rcv.block == HeaderLine(Current(s), now);
    HeaderFraming(Current(s), now);
  }

  /** A header keeps a buffer exactly if it is solely held and of the same size, and else takes a new one. */
  predicate PrepareEffect(f: File, r: Receiver, heap: seq<Buffer>, useCount: nat, o: Effect) {
    if Validates(r, heap) && useCount == 1 && heap[r.file.value].filesize == |f.data| then
      o.s.rcv.file == r.file && |o.heap| == |heap| && WellFormed(o.heap[r.file.value])
      && o.heap == heap[r.file.value := o.heap[r.file.value]]
    else
      o.s.rcv.file == Some(|heap|) && |o.heap| == |heap| + 1 && o.heap[..|heap|] == heap && WellFormed(o.heap[|heap|])
  }

  lemma HeaderPrepared(s: Session, heap: seq<Buffer>, useCount: nat, memory: seq<char>, now: string)
    requires s.client.done < |s.client.files| && s.rcv.linked
    requires ReadHeader(s.rcv.block) == Read(Resolved(FileInfoMessage(Current(s)).(utc := now)))
    requires |memory| == |Current(s).data|
    requires s.rcv.file.Some? ==> s.rcv.file.value < |heap| && WellFormed(heap[s.rcv.file.value])
    ensures var o := BeginHeader(s, heap, useCount, memory);
            PrepareEffect(Current(s), s.rcv, heap, useCount, o) && Holds(o.heap, o.s.rcv.file, Current(s), 0)
            && o.s == s.(rcv := s.rcv.(handler := Prepared, file := o.s.rcv.file)) && o.stored == None
            && |o.heap| >= |heap| && o.s.rcv.file.value < |o.heap|
  {
    hide ReadHeader;
    var f := Current(s);
    assert HeaderOf(FileInfoMessage(f).(utc := now)) == f.head;
    assert f.data[..0] == [];
  }

  lemma DequeueHeader(s: Session, heap: seq<Buffer>, useCount: nat, running: bool, memory: seq<char>)
    requires s.rcv.stopping || s.rcv.queue != []
    requires InvAt(HeaderPosted, s, heap) && Enabled(s, Dequeue(memory)) && !s.rcv.stopping
    requires forall id :: 0 <= id < |heap| ==> WellFormed(heap[id])
    ensures var o := OnDequeue(s, heap, useCount, running, memory);
            InvAt(Preparing, o.s, o.heap) && o.stored == None && PrepareEffect(Current(s), s.rcv, heap, useCount, o)
            && SameHistory(s, o.s)
  {
    hide IsHeader, GoodFiles, CloseIsLast, Blocks, HandedFits, Continues, ReadHeader, GoodTag, FileInfoMessage,
      StatusOf, Holds;
    PostedHeader(s, heap);
    var now :| GoodTag(now) && ReadHeader(s.rcv.block) == Read(Resolved(FileInfoMessage(Current(s)).(utc := now)));
    var s1 := s.(rcv := s.rcv.(queue := s.rcv.queue[1..]));
    MemoryFits(s, memory, now);
    HeaderPrepared(s1, heap, useCount, memory, now);
    var o := OnDequeue(s, heap, useCount, running, memory);
    assert o == BeginHeader(s1, heap, useCount, memory);
    hide BeginHeader, OnDequeue;
    PreparingInv(s, o.s, heap, o.heap);
  }

  lemma MemoryFits(s: Session, memory: seq<char>, now: string)
    requires s.client.done < |s.client.files| && FreshFits(s, memory)
    requires ReadHeader(s.rcv.block) == Read(Resolved(FileInfoMessage(Current(s)).(utc := now)))
    ensures |memory| == |Current(s).data|
  {
    hide ReadHeader;
  }

  lemma PreparingInv(s: Session, t: Session, heap: seq<Buffer>, heap': seq<Buffer>)
    requires InvAt(HeaderPosted, s, heap) && |heap'| >= |heap|
    requires t == s.(rcv := s.rcv.(queue := s.rcv.queue[1..], handler := Prepared, file := t.rcv.file))
    requires Holds(heap', t.rcv.file, Current(s), 0)
    ensures InvAt(Preparing, t, heap')
  {
    hide IsHeader, GoodFiles, CloseIsLast, Blocks, Concat, Continues;
  }

  lemma DequeueComplete(s: Session, heap: seq<Buffer>, useCount: nat, running: bool, memory: seq<char>)
    requires s.rcv.stopping || s.rcv.queue != []
    requires InvAt(Full, s, heap) && Enabled(s, Dequeue(memory)) && !s.rcv.stopping
    ensures var o := OnDequeue(s, heap, useCount, running, memory);
            s.client.done < |s.client.files| && InvAt(Storing, o.s, o.heap) && o.heap == heap
            && o.stored == s.rcv.file && Validates(s.rcv, heap)
            && Content(heap[s.rcv.file.value]) == Current(s)
            && o.s.rcv.file == s.rcv.file
            && o.s.rcv.handed == s.rcv.handed + [Current(s)] && o.s.rcv.taken == s.rcv.taken + [running]
  {
    hide IsHeader, GoodFiles, CloseIsLast, Blocks, ReadHeader, StatusOf, Continues, Concat;
    var f, b := Current(s), heap[s.rcv.file.value];
    assert b.filedata == b.filedata[..|f.data|] && f.data == f.data[..|f.data|];
  }

  lemma DequeueOther(ph: Phase, s: Session, heap: seq<Buffer>, useCount: nat, running: bool, memory: seq<char>)
    requires s.rcv.stopping || s.rcv.queue != []
    requires InvAt(ph, s, heap) && Enabled(s, Dequeue(memory)) && (s.rcv.stopping || ph !in {HeaderPosted, Full})
    ensures var o := OnDequeue(s, heap, useCount, running, memory);
            InvAt(ph, o.s, heap) && o.heap == heap && o.stored == None && o.s.rcv.file == s.rcv.file
            && SameHistory(s, o.s)
  {
    hide InvAt, Enabled;
    if s.rcv.stopping { Quits(ph, s, heap, useCount, running, memory); }
    else { Closes(ph, s, heap, useCount, running, memory); }
  }

  lemma Quits(ph: Phase, s: Session, heap: seq<Buffer>, useCount: nat, running: bool, memory: seq<char>)
    requires InvAt(ph, s, heap) && s.rcv.stopping
    ensures OnDequeue(s, heap, useCount, running, memory) == Effect(s.(rcv := s.rcv.(exited := true)), heap, None)
    ensures InvAt(ph, s.(rcv := s.rcv.(exited := true)), heap)
  {
    hide IsHeader, GoodFiles, CloseIsLast, Blocks, Holds, Continues, StatusOf, HandedFits, BeginHeader,
      BeginComplete;
  }

  lemma Closes(ph: Phase, s: Session, heap: seq<Buffer>, useCount: nat, running: bool, memory: seq<char>)
    requires s.rcv.queue != []
    requires InvAt(ph, s, heap) && Enabled(s, Dequeue(memory)) && !s.rcv.stopping && ph !in {HeaderPosted, Full}
    ensures var t := s.(rcv := s.rcv.(queue := [], linked := false));
            OnDequeue(s, heap, useCount, running, memory) == Effect(t, heap, None) && InvAt(ph, t, heap)
  {
    hide IsHeader, GoodFiles, CloseIsLast, Blocks, Holds, Continues, StatusOf, HandedFits, BeginHeader,
      BeginComplete, FreshFits, Owed, QueueFits, ReadHeader;
    CloseWaits(ph, s);
  }

  lemma CloseWaits(ph: Phase, s: Session)
    requires QueueFits(ph, s) && s.rcv.queue != [] && ph !in {HeaderPosted, Full}
    ensures s.rcv.queue == [NetworkClose] && s.net.closed && Owed(ph) == []
    ensures QueueFits(ph, s.(rcv := s.rcv.(queue := [], linked := false)))
  {
  }

  /* ---------- any step of one connection ---------- */

  function AfterDequeue(ph: Phase): Phase {
    match ph
    case HeaderPosted => Preparing
    case Full => Storing
    case _ => ph
  }

  function AfterDeliver(ph: Phase, s: Session, heap: seq<Buffer>): Phase
    requires s.client.done < |s.client.files|
  {
    if ph == HeaderUp then (if s.rcv.state == Complete then Lost else HeaderPosted)
    else if Received(heap, s.rcv.file) == |Current(s).data| then Full
    else Streaming
  }

  /** The phase a step leads to; `heap` is the heap after the step. */
  function NextPhase(ph: Phase, s: Session, heap: seq<Buffer>, e: SEvent): Phase
    requires e.Deliver? ==> s.client.done < |s.client.files|
  {
    match e
    case SendHeader(_) => HeaderUp
    case SendData(_) => Streaming
    case ReadStatus => if ph == ReadyDown then Streaming else Rest
    case Break(keep) => if ph == HeaderUp && keep == 0 then Lost else ph
    case Deliver => AfterDeliver(ph, s, heap)
    case Dequeue(_) => if s.rcv.stopping then ph else AfterDequeue(ph)
    case Advance(_) => AfterAdvance(ph)
    case _ => ph
  }

  /** The phases in which the receiver fills its buffer. */
  predicate Fills(ph: Phase) {
    match ph
    case Preparing => true
    case Announcing => true
    case ReadyDown => true
    case Streaming => true
    case Full => true
    case _ => false
  }

  predicate AllWellFormed(heap: seq<Buffer>) {
    forall id :: 0 <= id < |heap| ==> WellFormed(heap[id])
  }

  /** The four ways a step can touch the heap and the writer. */
  predicate Untouched(s: Session, heap: seq<Buffer>, o: Effect) {
    o.heap == heap && o.s.rcv.file == s.rcv.file && o.stored == None && SameHistory(s, o.s)
  }

  predicate SameHistory(s: Session, t: Session) {
    t.rcv.handed == s.rcv.handed && t.rcv.taken == s.rcv.taken
  }

  predicate Rewrites(s: Session, heap: seq<Buffer>, o: Effect) {
    && Validates(s.rcv, heap) && o.s.rcv.file == s.rcv.file && |o.heap| == |heap|
    && o.heap == heap[s.rcv.file.value := o.heap[s.rcv.file.value]] && WellFormed(o.heap[s.rcv.file.value])
    && o.stored == None && SameHistory(s, o.s)
  }

  predicate Allocates(s: Session, heap: seq<Buffer>, o: Effect) {
    && o.s.rcv.file == Some(|heap|) && |o.heap| == |heap| + 1 && o.heap[..|heap|] == heap
    && WellFormed(o.heap[|heap|]) && o.stored == None && SameHistory(s, o.s)
  }

  predicate Stores(s: Session, heap: seq<Buffer>, running: bool, o: Effect)
    requires s.client.done < |s.client.files|
  {
    && Validates(s.rcv, heap) && o.heap == heap && o.s.rcv.file == s.rcv.file && o.stored == s.rcv.file
    && Content(heap[s.rcv.file.value]) == Current(s)
    && o.s.rcv.handed == s.rcv.handed + [Current(s)] && o.s.rcv.taken == s.rcv.taken + [running]
  }

  predicate StepEffect(ph: Phase, ph': Phase, s: Session, heap: seq<Buffer>, useCount: nat, running: bool, o: Effect) {
    || (Untouched(s, heap, o) && (Fills(ph') ==> Fills(ph)))
    || (Rewrites(s, heap, o) && (Fills(ph) || useCount == 1))
    || Allocates(s, heap, o)
    || (s.client.done < |s.client.files| && Stores(s, heap, running, o) && Fills(ph) && !Fills(ph'))
  }

  lemma DeliverStep(ph: Phase, s: Session, heap: seq<Buffer>, running: bool)
    requires s.net.up != []
    requires InvAt(ph, s, heap) && Enabled(s, Deliver) && AllWellFormed(heap)
    ensures s.client.done < |s.client.files|
    ensures var o := OnBlock(s, heap); var ph' := AfterDeliver(ph, s, o.heap);
            InvAt(ph', o.s, o.heap) && StepEffect(ph, ph', s, heap, 0, running, o)
  {
    hide InvAt, OnBlock, DataArrive, HasRoom, WellFormed, Enabled, Allocates, Stores, Content;
    OnlyHeaderOrData(ph, s, heap);
    BlockLeaves(s, heap);
    if ph == HeaderUp {
      DeliverHeader(s, heap);
    } else {
      DeliverStreaming(s, heap);
      FilledWellFormed(heap[s.rcv.file.value], s.net.up[0]);
    }
  }

  lemma BlockLeaves(s: Session, heap: seq<Buffer>)
    requires s.net.up != []
    ensures var o := OnBlock(s, heap); o.s.rcv.file == s.rcv.file && SameHistory(s, o.s) && o.s.client == s.client
  {
    hide DataArrive, HasRoom, ReadCount, Validates, Post;
    var r := s.rcv.(block := s.net.up[0]);
    PostLeaves(r, NetworkReceive);
    PostLeaves(r, ReceiveComplete);
  }

  lemma PostLeaves(r: Receiver, m: Msg)
    ensures var p := Post(r, m); p == r.(queue := p.queue, posted := p.posted)
  {
  }

  lemma FilledWellFormed(b: Buffer, bytes: seq<char>)
    requires WellFormed(b) && HasRoom(b, bytes)
    ensures WellFormed(DataArrive(b, bytes))
  {
  }

  lemma DequeueStep(ph: Phase, s: Session, heap: seq<Buffer>, useCount: nat, running: bool, memory: seq<char>)
    requires s.rcv.stopping || s.rcv.queue != []
    requires InvAt(ph, s, heap) && Enabled(s, Dequeue(memory)) && AllWellFormed(heap)
    ensures var o := OnDequeue(s, heap, useCount, running, memory);
            var ph' := if s.rcv.stopping then ph else AfterDequeue(ph);
            InvAt(ph', o.s, o.heap) && StepEffect(ph, ph', s, heap, useCount, running, o)
  {
    hide IsHeader, Holds, Continues, GoodFiles, HandedFits, CloseIsLast, InvAt, FreshFits, Content, OnDequeue;
    if s.rcv.stopping || ph !in {HeaderPosted, Full} {
      DequeueOther(ph, s, heap, useCount, running, memory);
    } else if ph == HeaderPosted {
      DequeueHeader(s, heap, useCount, running, memory);
    } else {
      DequeueComplete(s, heap, useCount, running, memory);
    }
  }

  /** Every step of a connection keeps its invariant, moves to the expected phase, and touches the
      heap in one of the four ways. */
  lemma SessionStep(ph: Phase, s: Session, heap: seq<Buffer>, useCount: nat, running: bool, e: SEvent)
    requires InvAt(ph, s, heap) && Enabled(s, e) && AllWellFormed(heap)
    ensures e.Deliver? ==> s.client.done < |s.client.files|
    ensures var o := Step(s, heap, useCount, running, e); var ph' := NextPhase(ph, s, o.heap, e);
            InvAt(ph', o.s, o.heap) && StepEffect(ph, ph', s, heap, useCount, running, o)
  {
    hide IsHeader, Holds, Continues, GoodFiles, HandedFits, CloseIsLast, InvAt, FreshFits, Content, OnDequeue,
      OnBlock, Rewrites, Allocates, Stores, Sendable, StatusLine, StatusOf, HeaderLine;
    match e
    case Deliver => DeliverStep(ph, s, heap, running);
    case Dequeue(memory) => DequeueStep(ph, s, heap, useCount, running, memory);
    case _ => QuietStep(ph, s, heap, useCount, running, e);
  }

  lemma QuietStep(ph: Phase, s: Session, heap: seq<Buffer>, useCount: nat, running: bool, e: SEvent)
    requires InvAt(ph, s, heap) && Enabled(s, e) && !e.Deliver? && !e.Dequeue?
    ensures var o := Step(s, heap, useCount, running, e); var ph' := NextPhase(ph, s, o.heap, e);
            InvAt(ph', o.s, o.heap) && Untouched(s, heap, o) && (Fills(ph') ==> Fills(ph))
  {
    hide InvAt, StatusLine, StatusOf, HeaderLine, Sendable, OnStatus, OnAdvance, GoodTag, Untouched;
    QuietUntouched(s, heap, useCount, running, e);
    match e
    case SendHeader(now) => SendHeaderKeeps(ph, s, heap, now);
    case SendData(n) => SendDataKeeps(ph, s, heap, n); SendingIsStreaming(ph, s, heap);
    case ReadStatus => ReadStatusKeeps(ph, s, heap);
    case Break(keep) => BreakKeeps(ph, s, heap, keep);
    case DeliverError => DeliverErrorKeeps(ph, s, heap);
    case Advance(now) => AdvanceKeeps(ph, s, heap, now);
    case Stop => StopKeeps(ph, s, heap);
  }

  lemma QuietUntouched(s: Session, heap: seq<Buffer>, useCount: nat, running: bool, e: SEvent)
    requires Enabled(s, e) && !e.Deliver? && !e.Dequeue?
    ensures Untouched(s, heap, Step(s, heap, useCount, running, e)) && Step(s, heap, useCount, running, e).heap == heap
  {
    hide StatusLine, StatusOf, HeaderLine, Sendable, GoodTag;
  }

  lemma SendingIsStreaming(ph: Phase, s: Session, heap: seq<Buffer>)
    requires InvAt(ph, s, heap) && s.client.phase.Sends?
    ensures ph == Streaming
  {
    hide IsHeader, Holds, Continues, GoodFiles, HandedFits, CloseIsLast, StatusOf;
  }

  /** A connection does not notice changes to buffers that are not its own. */
  lemma Frame(ph: Phase, s: Session, heap: seq<Buffer>, heap': seq<Buffer>)
    requires InvAt(ph, s, heap) && |heap| <= |heap'|
    requires s.rcv.file.Some? && s.rcv.file.value < |heap| ==> heap'[s.rcv.file.value] == heap[s.rcv.file.value]
    ensures InvAt(ph, s, heap')
  {
    hide IsHeader, Continues, GoodFiles, HandedFits, CloseIsLast, StatusOf, Blocks;
  }

  /** A connection that fills no buffer does not notice changes to any. */
  lemma FrameQuiet(ph: Phase, s: Session, heap: seq<Buffer>, heap': seq<Buffer>)
    requires InvAt(ph, s, heap) && |heap| <= |heap'| && !Fills(ph)
    ensures InvAt(ph, s, heap')
  {
    hide IsHeader, Continues, GoodFiles, HandedFits, CloseIsLast, StatusOf, Blocks, Holds;
  }
}
