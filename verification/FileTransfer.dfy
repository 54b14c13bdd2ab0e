/** One file transfer seen from the receiver: the buffer a file is assembled in, the header line and
    the status lines, and the decisions of the receiver's handlers. */
module FileTransfer {
  import opened Text
  import opened AsciiProtocol
  import opened AsciiRoundTrip
  import AsciiDispatch
  import AsciiText
  import opened TcpClient

  datatype Header = Header(gid: string, uid: string, cid: string, tmobs: string, subpath: string, filename: string)

  datatype File = File(head: Header, data: seq<char>)

  /** The value of a FileInfo object. */
  datatype Buffer = Buffer(head: Header, filesize: int, rcvsize: int, filedata: seq<char>)

  predicate WellFormed(b: Buffer) {
    |b.filedata| == b.filesize && 0 <= b.rcvsize <= b.filesize
  }

  /** The memcpy of DataArrive stays inside the allocation. */
  predicate HasRoom(b: Buffer, bytes: seq<char>) {
    0 <= b.rcvsize && b.rcvsize + |bytes| <= |b.filedata|
  }

  function DataArrive(b: Buffer, bytes: seq<char>): Buffer
    requires HasRoom(b, bytes)
  {
    b.(filedata := b.filedata[..b.rcvsize] + bytes + b.filedata[b.rcvsize + |bytes|..],
       rcvsize := b.rcvsize + |bytes|)
  }

  function Content(b: Buffer): File {
    File(b.head, b.filedata)
  }

  /** A file up to the path the writer stores it under. */
  function Plain(f: File): File {
    f.(head := f.head.(subpath := ""))
  }

  /* ---------- the receiver's state and status codes ---------- */

  datatype RState = Waiting | Ready | Complete | Failure

  function StatusCode(s: RState): int {
    match s case Waiting => 0 case Ready => 1 case Complete => 2 case Failure => 3
  }

  datatype Msg = NetworkReceive | NetworkClose | ReceiveComplete

  /* ---------- lines ---------- */

  function FileInfoMessage(f: File): Message {
    Message(KFileInfo, "fileinfo", "", f.head.gid, f.head.uid, f.head.cid,
            FileInfo(f.head.tmobs, f.head.subpath, f.head.filename, |f.data|))
  }

  function HeaderLine(f: File, now: string): string {
    Compact(FileInfoMessage(f), now)
  }

  function FileStatMessage(status: int): Message {
    Message(KFileStat, "filestat", "", "", "", "", FileStat(status))
  }

  function StatusLine(status: int, now: string): string {
    Compact(FileStatMessage(status), now)
  }

  /** What a client reads from a status line. */
  function StatusOf(line: string): Option<int> {
    match Resolve(Chop(line))
    case Resolved(m) => if m.fields.FileStat? then Some(m.fields.status) else None
    case _ => None
  }

  predicate NewlineFree(h: Header) {
    Lacks(h.gid, '\n') && Lacks(h.uid, '\n') && Lacks(h.cid, '\n')
    && Lacks(h.tmobs, '\n') && Lacks(h.subpath, '\n') && Lacks(h.filename, '\n')
  }

  /** A file a client may offer. */
  predicate GoodFile(f: File) {
    0 < |f.data| <= INT_MAX && Printable(FileInfoMessage(f)) && NewlineFree(f.head)
  }

  predicate GoodTag(now: string) {
    TimeTag(now) && Lacks(now, '\n')
  }

  /** A header line that fits its output slot, newline and NUL included. */
  predicate Sendable(f: File, now: string) {
    GoodFile(f) && GoodTag(now) && |HeaderLine(f, now)| <= 1023
  }

  /** Reading a header out of one received block: find the newline, read through it, put a NUL in its
      place and resolve. Without a newline the code writes before its buffer. */
  datatype HeaderRead = NoNewline | Read(outcome: Outcome)

  function ReadHeader(block: seq<char>): HeaderRead {
    var pos := FirstMatch(block, "\n", 0);
    if pos == -1 then NoNewline
    else
      var n := ReadCount(|block|, pos + 1, 0);
      Read(Resolve(CString(block[..n][pos := NUL])))
  }

  lemma {:induction false} JoinKvsLength(kvs: seq<KeyVal>, kv: KeyVal)
    ensures |JoinKvs(kvs + [kv])| == |JoinKvs(kvs)| + |kv.keyword| + |kv.value| + 2
    ensures |JoinKvs(kvs + Optional(kv.keyword, kv.value))| <= |JoinKvs(kvs)| + |kv.keyword| + |kv.value| + 2
  {
    assert (kvs + [kv])[..|kvs|] == kvs;
    assert kvs + [] == kvs;
  }

  lemma IntTextLength(n: int)
    requires 0 <= n <= INT_MAX
    ensures |IntText(n)| <= 10
  {
    DigitsBound(n, 10);
  }

  lemma {:induction false} DigitsBound(n: nat, k: nat)
    requires 0 < k && n < Power(k)
    ensures |NatText(n)| <= k
  {
    if n >= 10 { DigitsBound(n / 10, k - 1); }
  }

  function HeaderWeight(f: File, now: string): nat {
    |now| + |f.head.gid| + |f.head.uid| + |f.head.cid| + |f.head.tmobs| + |f.head.subpath| + |f.head.filename|
  }

  lemma HeaderPairsLength(f: File, now: string)
    requires |f.data| <= INT_MAX
    ensures |JoinKvs(AllPairs(FileInfoMessage(f), now))| <= HeaderWeight(f, now) + 66
  {
    hide JoinKvs, Optional, IntText;
    var h := f.head;
    var p1 := [KeyVal("utc", now)];
    JoinKvsLength([], KeyVal("utc", now));
    assert [] + p1 == p1 && |JoinKvs([])| == 0 by { NoPairs(); }
    JoinKvsLength(p1, KeyVal("gid", h.gid));
    var p2 := p1 + Optional("gid", h.gid);
    JoinKvsLength(p2, KeyVal("uid", h.uid));
    var p3 := p2 + Optional("uid", h.uid);
    JoinKvsLength(p3, KeyVal("cid", h.cid));
    var p4 := p3 + Optional("cid", h.cid);
    JoinKvsLength(p4, KeyVal("tmobs", h.tmobs));
    var p5 := p4 + [KeyVal("tmobs", h.tmobs)];
    JoinKvsLength(p5, KeyVal("subpath", h.subpath));
    var p6 := p5 + [KeyVal("subpath", h.subpath)];
    JoinKvsLength(p6, KeyVal("filename", h.filename));
    var p7 := p6 + [KeyVal("filename", h.filename)];
    IntTextLength(|f.data|);
    JoinKvsLength(p7, KeyVal("filesize", IntText(|f.data|)));
    assert AllPairs(FileInfoMessage(f), now) == p7 + [KeyVal("filesize", IntText(|f.data|))];
  }

  lemma NoPairs()
    ensures JoinKvs([]) == ""
  {
  }

  /** A caller's check: a header whose strings take at most 947 characters fits its slot. */
  lemma ShortHeaderIsSendable(f: File, now: string)
    requires GoodFile(f) && GoodTag(now) && HeaderWeight(f, now) <= 947
    ensures Sendable(f, now)
  {
    hide AllPairs, FileInfoMessage, TimeTag, Printable, NewlineFree;
    HeaderPairsLength(f, now);
    assert FileInfoMessage(f).typ == "fileinfo" by { TypeOfHeader(f); }
    LineLength(FileInfoMessage(f), now);
  }

  lemma TypeOfHeader(f: File)
    ensures FileInfoMessage(f).typ == "fileinfo"
  {
  }

  lemma LineLength(m: Message, now: string)
    ensures |Compact(m, now)| <= |m.typ| + |JoinKvs(AllPairs(m, now))| + 2
  {
    hide JoinKvs, BasePairs, FieldPairs, TrimRight, CString;
  }

  /** The assumptions on clients can be met. */
  lemma SomeFileIsSendable(data: seq<char>)
    requires 0 < |data| <= INT_MAX
    ensures Sendable(File(Header("G001", "", "", "", "", "x.fit"), data), "2017-10-29T12:00:00")
  {
    ShortHeaderIsSendable(File(Header("G001", "", "", "", "", "x.fit"), data), "2017-10-29T12:00:00");
  }

  lemma FileInfoWellTyped(f: File)
    requires |f.data| <= INT_MAX
    ensures WellTyped(FileInfoMessage(f))
  {
    AsciiDispatch.DispatchExactly("fileinfo", KFileInfo);
  }

  lemma FileStatWellTyped(status: int)
    requires INT_MIN <= status <= INT_MAX
    ensures WellTyped(FileStatMessage(status))
  {
    AsciiDispatch.DispatchExactly("filestat", KFileStat);
  }

  predicate PairNewlineFree(kv: KeyVal) {
    Lacks(kv.keyword, '\n') && Lacks(kv.value, '\n')
  }

  lemma HeaderPairsNewlineFree(f: File, now: string)
    requires NewlineFree(f.head) && Lacks(now, '\n')
    ensures forall i :: 0 <= i < |AllPairs(FileInfoMessage(f), now)| ==>
              PairNewlineFree(AllPairs(FileInfoMessage(f), now)[i])
  {
    IntTextClean(|f.data|);
    var kvs := AllPairs(FileInfoMessage(f), now);
    var h := f.head;
    var all := [KeyVal("utc", now), KeyVal("gid", h.gid), KeyVal("uid", h.uid), KeyVal("cid", h.cid),
                KeyVal("tmobs", h.tmobs), KeyVal("subpath", h.subpath), KeyVal("filename", h.filename),
                KeyVal("filesize", IntText(|f.data|))];
    assert forall i :: 0 <= i < |all| ==> PairNewlineFree(all[i]);
    hide PairNewlineFree, Lacks;
    assert forall i :: 0 <= i < |kvs| ==> kvs[i] in all;
  }

  lemma HeaderHasOneNewline(f: File, now: string)
    requires GoodFile(f) && GoodTag(now)
    ensures var line := HeaderLine(f, now); line != "" && Find(line, '\n') == |line| - 1 && Lacks(Chop(line), NUL)
  {
    var line, body := HeaderLine(f, now), Chop(HeaderLine(f, now));
    assert line == body + "\n" && Lacks(body, NUL);
    HeaderBodyNewlineFree(f, now);
    hide HeaderLine;
    FindUnique(line, '\n', |body|);
  }

  lemma HeaderBodyNewlineFree(f: File, now: string)
    requires GoodFile(f) && GoodTag(now)
    ensures Lacks(Chop(HeaderLine(f, now)), '\n')
  {
    hide AllPairs, Compact, Printable, TimeTag, WellTyped, NewlineFree, PairNewlineFree, Body, JoinKvs;
    var m := FileInfoMessage(f);
    var kvs := AllPairs(m, now);
    FileInfoWellTyped(f);
    CompactIsBody(m, now);
    HeaderPairsNewlineFree(f, now);
    PairsNewlineFree(kvs);
    JoinKvsLacks(kvs, '\n');
    BodyLacks(m.typ, kvs, '\n');
  }

  lemma PairsNewlineFree(kvs: seq<KeyVal>)
    requires forall i :: 0 <= i < |kvs| ==> PairNewlineFree(kvs[i])
    ensures forall i :: 0 <= i < |kvs| ==> Lacks(kvs[i].keyword, '\n') && Lacks(kvs[i].value, '\n')
  {
  }

  lemma BodyLacks(typ: string, kvs: seq<KeyVal>, c: char)
    requires Lacks(typ, c) && c != ' ' && Lacks(JoinKvs(kvs), c)
    ensures Lacks(Body(typ, kvs), c)
  {
    assert Lacks(typ + " " + JoinKvs(kvs), c);
  }

  /** A block that is one line is read up to its newline. */
  lemma LineIsRead(line: string)
    requires line != "" && Find(line, '\n') == |line| - 1 && Lacks(Chop(line), NUL)
    ensures FirstMatch(line, "\n", 0) == |line| - 1 && ReadCount(|line|, |line|, 0) == |line|
    ensures ReadHeader(line) == Read(Resolve(Chop(line)))
  {
    hide Resolve, FirstMatch, Find;
    FirstNewline(line);
    var pos := |line| - 1;
    var cut := line[..|line|][pos := NUL];
    assert cut[..pos] == Chop(line);
    FindUnique(cut, NUL, pos);
  }

  /** Header framing: the receiver's reading of a header block yields exactly the sender's fields. */
  lemma HeaderFraming(f: File, now: string)
    requires GoodFile(f) && GoodTag(now)
    ensures ReadHeader(HeaderLine(f, now)) == Read(Resolved(FileInfoMessage(f).(utc := now)))
    ensures var line := HeaderLine(f, now);
            FirstMatch(line, "\n", 0) == |line| - 1 && ReadCount(|line|, |line|, 0) == |line|
  {
    hide ReadHeader, Resolve, Compact, NewlineFree, Printable, WellTyped, TimeTag;
    FileInfoWellTyped(f);
    HeaderHasOneNewline(f, now);
    PrintThenResolve(FileInfoMessage(f), now);
    LineIsRead(HeaderLine(f, now));
  }

  /** A status line tells the client the status, for every status. */
  lemma StatusFraming(status: int, now: string)
    requires INT_MIN <= status <= INT_MAX && TimeTag(now)
    ensures StatusOf(StatusLine(status, now)) == Some(status)
  {
    FileStatWellTyped(status);
    PrintThenResolve(FileStatMessage(status), now);
  }

  /** A status line, letter by letter. */
  lemma StatusLineText(status: int, now: string)
    requires Lacks(now, NUL)
    ensures StatusLine(status, now) == "filestat utc=" + now + ",status=" + IntText(status) + "\n"
  {
    hide Compact, IntText;
    var m := FileStatMessage(status);
    AsciiText.FileStatText(m, now);
    assert "filestat" + " utc=" + now + "," + "" + "" + "" == "filestat utc=" + now + ",";
    assert "filestat utc=" + now + "," + "status=" == "filestat utc=" + now + ",status=";
  }

  /** How a status line ends. */
  function StatusEnd(status: RState): string {
    match status
    case Waiting => ",status=0\n"
    case Ready => ",status=1\n"
    case Complete => ",status=2\n"
    case Failure => ",status=3\n"
  }

  /** The four status lines. */
  lemma StatusTexts(status: RState, now: string)
    requires Lacks(now, NUL)
    ensures StatusLine(StatusCode(status), now) == "filestat utc=" + now + StatusEnd(status)
  {
    hide StatusLine;
    StatusLineText(StatusCode(status), now);
    match status
    case Waiting => OneDigit(now, 0, "0");
    case Ready => OneDigit(now, 1, "1");
    case Complete => OneDigit(now, 2, "2");
    case Failure => OneDigit(now, 3, "3");
  }

  lemma OneDigit(now: string, n: nat, digit: string)
    requires n < 10 && digit == [('0' as int + n) as char]
    ensures "filestat utc=" + now + ",status=" + IntText(n) + "\n" ==
            "filestat utc=" + now + (",status=" + digit + "\n")
  {
  }

  /** A header line, letter by letter. */
  lemma HeaderLineText(f: File, now: string)
    requires Lacks(now, NUL) && Lacks(f.head.gid, NUL) && Lacks(f.head.uid, NUL) && Lacks(f.head.cid, NUL)
    requires Lacks(f.head.tmobs, NUL) && Lacks(f.head.subpath, NUL) && Lacks(f.head.filename, NUL)
    ensures HeaderLine(f, now) ==
            "fileinfo" + " utc=" + now + ","
            + (if f.head.gid == "" then "" else "gid=" + f.head.gid + ",")
            + (if f.head.uid == "" then "" else "uid=" + f.head.uid + ",")
            + (if f.head.cid == "" then "" else "cid=" + f.head.cid + ",")
            + "tmobs=" + f.head.tmobs + ",subpath=" + f.head.subpath + ",filename=" + f.head.filename
            + ",filesize=" + IntText(|f.data|) + "\n"
  {
    hide Compact, IntText;
    AsciiText.FileInfoText(FileInfoMessage(f), now);
  }

  /* ---------- handler decisions ---------- */

  /** Whether on_network_receive keeps the current buffer for the next file. */
  predicate Reuses(useCount: nat, held: Option<Buffer>, filesize: int) {
    held.Some? && useCount == 1 && held.value.filesize == filesize
  }

  function HeaderOf(m: Message): Header
    requires m.fields.FileInfo?
  {
    Header(m.gid, m.uid, m.cid, m.fields.tmobs, m.fields.subpath, m.fields.filename)
  }

  /** The buffer after a header was accepted: the kept one with its metadata and counter replaced, or
      a new one over uninitialised memory. */
  function PrepareBuffer(reuse: bool, held: Option<Buffer>, m: Message, memory: seq<char>): Buffer
    requires m.fields.FileInfo? && (reuse ==> held.Some?)
  {
    if reuse then held.value.(head := HeaderOf(m), rcvsize := 0)
    else Buffer(HeaderOf(m), m.fields.filesize, 0, memory)
  }

  /** The verdict of on_receive_complete. */
  function Verdict(b: Buffer): RState {
    if b.filesize == b.rcvsize then Complete else Failure
  }
}
