/** The byte buffers of a TCP connection: first-occurrence search, the consuming read, the receive
    ring that overwrites its oldest bytes, and the send ring with one asynchronous write in flight.
    The Boost ring is a bounded sequence. */
module TcpClient {
  import opened Text

  const TCP_PACK_SIZE: nat := 1500

  /* ---------- searching ---------- */

  predicate MatchAt(s: string, flag: string, pos: int) {
    0 <= pos && pos + |flag| <= |s| && s[pos..pos + |flag|] == flag
  }

  /** The least position from `from` on at which the whole flag occurs, or -1. */
  function FirstMatch(s: string, flag: string, from: nat): (r: int)
    ensures r == -1 || (from <= r && MatchAt(s, flag, r))
    ensures forall p :: from <= p < (if r == -1 then |s| + 1 else r) ==> !MatchAt(s, flag, p)
    decreases |s| - from
  {
    if from + |flag| > |s| then -1
    else if MatchAt(s, flag, from) then from
    else if from == |s| then -1
    else FirstMatch(s, flag, from + 1)
  }

  lemma FirstMatchUnique(s: string, flag: string, from: nat, r: int)
    requires r == -1 || (from <= r && MatchAt(s, flag, r))
    requires forall p :: from <= p < (if r == -1 then |s| + 1 else r) ==> !MatchAt(s, flag, p)
    ensures r == FirstMatch(s, flag, from)
  {
    var q := FirstMatch(s, flag, from);
    assert q == -1 || q <= |s|;
  }

  /** A search position is decided by the first unequal character. */
  lemma MatchIs(s: string, flag: string, pos: nat, i: nat)
    requires pos + |flag| <= |s| && i <= |flag|
    requires forall k :: 0 <= k < i ==> s[pos + k] == flag[k]
    requires i < |flag| ==> s[pos + i] != flag[i]
    ensures MatchAt(s, flag, pos) <==> i == |flag|
  {
    assert i < |flag| ==> s[pos..pos + |flag|][i] == s[pos + i];
  }

  lemma NewlineAt(s: string, p: int)
    ensures MatchAt(s, "\n", p) <==> 0 <= p < |s| && s[p] == '\n'
  {
    if 0 <= p < |s| { assert s[p..p+1] == [s[p]]; }
  }

  lemma FirstNewline(s: string)
    ensures FirstMatch(s, "\n", 0) == if Find(s, '\n') < |s| then Find(s, '\n') else -1
  {
    hide MatchAt, FirstMatch, Find;
    var i := Find(s, '\n');
    assert forall p :: 0 <= p < i ==> s[..i][p] == s[p];
    forall p ensures MatchAt(s, "\n", p) <==> 0 <= p < |s| && s[p] == '\n' { NewlineAt(s, p); }
    FirstMatchUnique(s, "\n", 0, if i < |s| then i else -1);
  }

  /* ---------- the receive ring ---------- */

  function Newest(s: seq<char>, capacity: nat): seq<char> {
    if |s| <= capacity then s else s[|s| - capacity..]
  }

  lemma NewestIs(s: seq<char>, capacity: nat)
    ensures var n := Newest(s, capacity);
            |n| == (if |s| < capacity then |s| else capacity) && n == s[|s| - |n|..]
  {
  }

  /** circular_buffer::push_back. */
  function PushBack(ring: seq<char>, capacity: nat, c: char): seq<char> {
    if capacity == 0 then ring
    else if |ring| >= capacity then ring[1..] + [c]
    else ring + [c]
  }

  function PushAll(ring: seq<char>, capacity: nat, bytes: seq<char>): seq<char> {
    if bytes == [] then ring
    else PushBack(PushAll(ring, capacity, bytes[..|bytes|-1]), capacity, bytes[|bytes|-1])
  }

  /** However the bytes arrive, the ring keeps exactly the newest ones that fit. */
  lemma {:induction false} RingKeepsNewest(ring: seq<char>, capacity: nat, bytes: seq<char>)
    requires |ring| <= capacity
    ensures PushAll(ring, capacity, bytes) == Newest(ring + bytes, capacity)
  {
    if bytes == [] {
      assert ring + bytes == ring;
    } else {
      var init, last := bytes[..|bytes|-1], bytes[|bytes|-1];
      RingKeepsNewest(ring, capacity, init);
      PushOne(ring + init, capacity, last);
      assert PushAll(ring, capacity, bytes) == PushBack(PushAll(ring, capacity, init), capacity, last);
      assert bytes == init + [last];
      hide *;
      AppendLast(ring, init, last);
    }
  }

  lemma NoPush(ring: seq<char>, capacity: nat)
    ensures PushAll(ring, capacity, []) == ring
  {
  }

  lemma OnePush(ring: seq<char>, capacity: nat, bytes: seq<char>, i: nat)
    requires i < |bytes|
    ensures PushAll(ring, capacity, bytes[..i + 1]) == PushBack(PushAll(ring, capacity, bytes[..i]), capacity, bytes[i])
    ensures var r := PushAll(ring, capacity, bytes[..i]);
            |r| <= capacity ==> |PushBack(r, capacity, bytes[i])| <= capacity
  {
    assert bytes[..i + 1][..i] == bytes[..i];
  }

  lemma PushFits(ring: seq<char>, capacity: nat, bytes: seq<char>, i: nat)
    requires i < |bytes| && |ring| + i < capacity
    ensures PushBack(ring + bytes[..i], capacity, bytes[i]) == ring + bytes[..i + 1]
  {
  }

  lemma AppendLast(a: seq<char>, b: seq<char>, c: char)
    ensures (a + b) + [c] == a + (b + [c])
  {
  }

  lemma PushOne(s: seq<char>, capacity: nat, c: char)
    ensures PushBack(Newest(s, capacity), capacity, c) == Newest(s + [c], capacity)
  {
  }

  /** What Read hands out and how much it erases. It copies from `from` but erases from the front. */
  function ReadCount(available: nat, len: int, from: int): nat {
    if len <= 0 || from < 0 then 0
    else if available <= from then 0
    else if available < from + len then available - from
    else len
  }

  /* ---------- the send ring ---------- */

  /** `inflight` is the block handed to async_write_some; `sent` and `accepted` are histories. */
  datatype Sender = Sender(ring: seq<char>, inflight: Option<seq<char>>, sent: seq<char>, accepted: seq<char>)

  function WriteCount(s: Sender, capacity: nat, len: int): nat {
    if len <= 0 || capacity <= |s.ring| then 0
    else if capacity - |s.ring| > len then len
    else capacity - |s.ring|
  }

  function StartWrite(s: Sender): Sender {
    if s.ring == [] then s.(inflight := None) else s.(inflight := Some(s.ring))
  }

  function WriteStep(s: Sender, capacity: nat, bytes: seq<char>): Sender {
    var n := WriteCount(s, capacity, |bytes|);
    var s' := s.(ring := s.ring + bytes[..n], accepted := s.accepted + bytes[..n]);
    if s.ring == [] && n > 0 then StartWrite(s') else s'
  }

  /** The asynchronous write reports `n` bytes gone: they leave the ring, and the next write starts. */
  function SentStep(s: Sender, n: nat): Sender {
    if n > |s.ring| then s
    else StartWrite(s.(ring := s.ring[n..], sent := s.sent + s.ring[..n]))
  }

  /** The asynchronous write reports an error: nothing leaves the ring and no write is started. */
  function FailStep(s: Sender): Sender {
    s.(inflight := None)
  }

  datatype SendOp = DoWrite(bytes: seq<char>) | DoSent(n: nat) | DoFail

  predicate SendOpEnabled(s: Sender, op: SendOp) {
    match op
    case DoWrite(_) => true
    case DoSent(n) => s.inflight.Some? && 0 < n <= |s.inflight.value|
    case DoFail => s.inflight.Some?
  }

  predicate SendInvariant(s: Sender, capacity: nat) {
    && s.sent + s.ring == s.accepted
    && |s.ring| <= capacity
    && (s.inflight.Some? ==> s.inflight.value <= s.ring && s.inflight.value != [])
  }

  /** One asynchronous write is outstanding exactly when there is something to send. */
  predicate Flows(s: Sender) {
    s.inflight.Some? <==> s.ring != []
  }

  function SendApply(s: Sender, capacity: nat, op: SendOp): Sender {
    match op
    case DoWrite(bytes) => WriteStep(s, capacity, bytes)
    case DoSent(n) => SentStep(s, n)
    case DoFail => FailStep(s)
  }

  const IDLE_SENDER := Sender([], None, [], [])

  function SendState(capacity: nat, ops: seq<SendOp>): Sender {
    if ops == [] then IDLE_SENDER
    else SendApply(SendState(capacity, ops[..|ops|-1]), capacity, ops[|ops|-1])
  }

  /** A run: a completion reports some bytes of the block in flight, or an error. */
  predicate SendLegal(capacity: nat, ops: seq<SendOp>) {
    ops == [] ||
    (SendLegal(capacity, ops[..|ops|-1])
     && SendOpEnabled(SendState(capacity, ops[..|ops|-1]), ops[|ops|-1]))
  }

  lemma WriteStepKeeps(s: Sender, capacity: nat, bytes: seq<char>)
    requires SendInvariant(s, capacity)
    ensures SendInvariant(WriteStep(s, capacity, bytes), capacity)
    ensures WriteStep(s, capacity, bytes).sent == s.sent
    ensures s.ring <= WriteStep(s, capacity, bytes).ring
    ensures Flows(s) <==> Flows(WriteStep(s, capacity, bytes))
  {
    var n := WriteCount(s, capacity, |bytes|);
    assert s.sent + (s.ring + bytes[..n]) == (s.sent + s.ring) + bytes[..n];
  }

  lemma SentStepKeeps(s: Sender, capacity: nat, n: nat)
    requires SendInvariant(s, capacity) && SendOpEnabled(s, DoSent(n))
    ensures SendInvariant(SentStep(s, n), capacity)
    ensures SentStep(s, n).accepted == s.accepted
    ensures SentStep(s, n).sent == s.sent + s.inflight.value[..n]
    ensures Flows(SentStep(s, n))
  {
    assert s.ring[..n] == s.inflight.value[..n];
    assert (s.sent + s.ring[..n]) + s.ring[n..] == s.sent + s.ring by { assert s.ring == s.ring[..n] + s.ring[n..]; }
  }

  /** In every run: a Write that finds room for its bytes accepts them all, and one that does not leaves
      the ring full of what came first. */
  lemma WriteAccepts(capacity: nat, ops: seq<SendOp>, bytes: seq<char>)
    requires SendLegal(capacity, ops)
    ensures var s, t := SendState(capacity, ops), SendState(capacity, ops + [DoWrite(bytes)]);
            |s.ring| <= capacity && SendLegal(capacity, ops + [DoWrite(bytes)])
            && if |s.ring| + |bytes| <= capacity
               then t.accepted == s.accepted + bytes && t.ring == s.ring + bytes
               else |t.ring| == capacity && t.accepted == s.accepted + bytes[..capacity - |s.ring|]
                    && t.ring == s.ring + bytes[..capacity - |s.ring|]
  {
    SendRingConserves(capacity, ops);
    hide SendInvariant;
    RingFits(SendState(capacity, ops), capacity);
    assert (ops + [DoWrite(bytes)])[..|ops|] == ops;
    assert bytes[..|bytes|] == bytes && bytes[..0] == [];
  }

  lemma RingFits(s: Sender, capacity: nat)
    requires SendInvariant(s, capacity)
    ensures |s.ring| <= capacity
  {
  }

  predicate NoFailure(ops: seq<SendOp>) {
    forall i :: 0 <= i < |ops| ==> ops[i] != DoFail
  }

  lemma NoFailureLast(ops: seq<SendOp>)
    requires ops != []
    ensures NoFailure(ops) <==> NoFailure(ops[..|ops|-1]) && ops[|ops|-1] != DoFail
  {
    assert forall i :: 0 <= i < |ops| - 1 ==> ops[..|ops|-1][i] == ops[i];
  }

  /** Over every run, failed writes included: nothing accepted is lost, reordered or sent twice, and
      there is at most one asynchronous write, whose bytes head the ring. One is outstanding exactly
      when the ring holds bytes if and only if no write has failed. */
  lemma {:induction false} SendRingConserves(capacity: nat, ops: seq<SendOp>)
    requires SendLegal(capacity, ops)
    ensures SendInvariant(SendState(capacity, ops), capacity)
    ensures Flows(SendState(capacity, ops)) <==> NoFailure(ops)
  {
    if ops != [] {
      var p, last := SendState(capacity, ops[..|ops|-1]), ops[|ops|-1];
      SendRingConserves(capacity, ops[..|ops|-1]);
      NoFailureLast(ops);
      hide SendInvariant, WriteStep, SentStep, NoFailure;
      match last
      case DoWrite(bytes) => WriteStepKeeps(p, capacity, bytes);
      case DoSent(n) => SentStepKeeps(p, capacity, n); InFlightFlows(p, capacity);
      case DoFail => FailStepKeeps(p, capacity); InFlightFlows(p, capacity);
    }
  }

  lemma InFlightFlows(s: Sender, capacity: nat)
    requires SendInvariant(s, capacity) && s.inflight.Some?
    ensures Flows(s)
  {
  }

  lemma FailStepKeeps(s: Sender, capacity: nat)
    requires SendInvariant(s, capacity) && SendOpEnabled(s, DoFail)
    ensures SendInvariant(FailStep(s), capacity) && !Flows(FailStep(s))
  {
  }

  /** A failed write is not restarted: the handler returns, the ring keeps its bytes, and Write only
      starts a write on an empty ring. In every run nothing is sent after the first failure, no
      completion comes any more, and what was accepted and not yet sent stays in the ring for good. */
  lemma {:induction false} FailedWriteStalls(capacity: nat, ops: seq<SendOp>, k: nat)
    requires SendLegal(capacity, ops) && k < |ops| && ops[k] == DoFail
    ensures var s, t := SendState(capacity, ops[..k]), SendState(capacity, ops);
            t.sent == s.sent && s.ring != [] && s.ring <= t.ring && t.inflight == None
    ensures forall i :: k < i < |ops| ==> ops[i].DoWrite?
  {
    var init, last := ops[..|ops|-1], ops[|ops|-1];
    var p := SendState(capacity, init);
    SendRingConserves(capacity, init);
    hide SendInvariant, SendApply, SendOpEnabled, Flows, NoFailure;
    if k == |ops| - 1 {
      assert ops[..k] == init;
      FailureStops(p, capacity);
    } else {
      assert init[..k] == ops[..k] && init[k] == ops[k];
      FailedWriteStalls(capacity, init, k);
      assert forall i :: k < i < |ops| - 1 ==> ops[i] == init[i];
      StalledStep(p, capacity, last);
    }
  }

  lemma FailureStops(s: Sender, capacity: nat)
    requires SendInvariant(s, capacity) && SendOpEnabled(s, DoFail)
    ensures var t := SendApply(s, capacity, DoFail);
            s.ring != [] && t.sent == s.sent && t.ring == s.ring && t.inflight == None
  {
  }

  lemma StalledStep(s: Sender, capacity: nat, op: SendOp)
    requires SendInvariant(s, capacity) && s.ring != [] && s.inflight == None && SendOpEnabled(s, op)
    ensures op.DoWrite?
    ensures var t := SendApply(s, capacity, op); t.sent == s.sent && s.ring <= t.ring && t.inflight == None
  {
  }

  /* ---------- the connection ---------- */

  class Client {
    var usebuf: bool
    var bytercv: nat
    const bufrcv: array<char>
    var capacity: nat
    var crcrcv: seq<char>
    var crcsnd: seq<char>
    var inflight: Option<seq<char>>
    var connected: bool
    ghost var sent: seq<char>
    ghost var accepted: seq<char>
    ghost var wire: seq<seq<char>>

    ghost predicate Valid()
      reads this, bufrcv
    {
      && bufrcv.Length == TCP_PACK_SIZE && bytercv <= TCP_PACK_SIZE
      && |crcrcv| <= capacity && capacity in {0, 10 * TCP_PACK_SIZE} && (usebuf ==> capacity > 0)
      && SendInvariant(Sending(), capacity)
    }

    ghost function Sending(): Sender
      reads this
    {
      Sender(crcsnd, inflight, sent, accepted)
    }

    /** The received bytes a caller can see. */
    function Visible(): seq<char>
      requires bytercv <= bufrcv.Length
      reads this, bufrcv
    {
      if usebuf then crcrcv else bufrcv[..bytercv]
    }

    constructor ()
      ensures Valid() && !usebuf && bytercv == 0 && Sending() == IDLE_SENDER && fresh(bufrcv)
      ensures connected && wire == []
    {
      connected, wire := true, [];
      usebuf, bytercv, capacity := false, 0, 0;
      bufrcv := new char[TCP_PACK_SIZE];
      crcrcv, crcsnd, inflight, sent, accepted := [], [], None, [], [];
    }

    /** Called before anything is sent. Switching the rings on gives them room, switching them off
        clears them. */
    method UseBuffer(on: bool)
      requires Valid() && Sending() == IDLE_SENDER
      modifies this
      ensures Valid() && usebuf == on && Sending() == IDLE_SENDER
      ensures capacity == if on && !old(usebuf) then 10 * TCP_PACK_SIZE else old(capacity)
      ensures crcrcv == if !on && old(usebuf) then [] else old(crcrcv)
      ensures bytercv == old(bytercv) && connected == old(connected) && wire == old(wire)
    {
      if usebuf != on {
        usebuf := on;
        if usebuf { capacity := 10 * TCP_PACK_SIZE; } else { crcrcv, crcsnd := [], []; }
      }
    }

    /** Search in either buffer mode. Every access stays below the number of valid bytes. */
    method Lookup(flag: string, len: int, from: int) returns (r: int)
      requires Valid() && len <= |flag|
      ensures len <= 0 || from < 0 ==> r == -1
      ensures len > 0 && from >= 0 && r != -1 ==>
                from <= r && MatchAt(Visible(), flag[..len], r)
                && forall p :: from <= p < r ==> !MatchAt(Visible(), flag[..len], p)
      ensures len > 0 && from >= 0 && r == -1 ==> forall p :: from <= p ==> !MatchAt(Visible(), flag[..len], p)
      ensures len > 0 && from >= 0 ==> r == FirstMatch(Visible(), flag[..len], from)
    {
      hide SendInvariant, FirstMatch;
      if len <= 0 || from < 0 { return -1; }
      ghost var s, f := Visible(), flag[..len];
      var n := (if usebuf then |crcrcv| else bytercv) - len;
      var i, pos := -1, from;
      while i != len && pos <= n
        invariant from <= pos && -1 <= i <= len
        invariant s == Visible()
        invariant i == len ==> pos > from && MatchAt(s, f, pos - 1)
        invariant forall p :: from <= p < pos && (i == len ==> p < pos - 1) ==> !MatchAt(s, f, p)
        decreases if i == len then 0 else 1, n - pos
      {
        i := 0;
        var j := pos;
        while i < len && flag[i] == (if usebuf then crcrcv[j] else bufrcv[j])
          invariant 0 <= i <= len && j == pos + i
          invariant forall k :: 0 <= k < i ==> s[pos + k] == f[k]
        {
          assert s[j] == (if usebuf then crcrcv[j] else bufrcv[j]) && f[i] == flag[i];
          i, j := i + 1, j + 1;
        }
        assert i < len ==> s[pos + i] == (if usebuf then crcrcv[j] else bufrcv[j]) && f[i] == flag[i];
        MatchIs(s, f, pos, i);
        pos := pos + 1;
      }
      r := if i != len then -1 else pos - 1;
      FirstMatchUnique(s, f, from, r);
    }

    /** Copies up to `len` bytes from `from` on. In buffered mode as many bytes leave the front of the
        ring; without the buffer the block stays until the next one arrives. */
    method Read(buff: array<char>, len: int, from: int) returns (n: nat)
      requires Valid() && buff != bufrcv && ReadCount(|Visible()|, len, from) <= buff.Length
      modifies buff, this`crcrcv
      ensures Valid() && n == ReadCount(|old(Visible())|, len, from)
      ensures len <= 0 || from < 0 || |old(Visible())| <= from ==> n == 0
      ensures len > 0 && 0 <= from < |old(Visible())| ==>
                n == if len < |old(Visible())| - from then len else |old(Visible())| - from
      ensures n > 0 ==> buff[..n] == old(Visible())[from..from + n]
      ensures forall k :: n <= k < buff.Length ==> buff[k] == old(buff[k])
      ensures crcrcv == if usebuf then old(crcrcv)[n..] else old(crcrcv)
    {
      hide SendInvariant;
      if len <= 0 || from < 0 { return 0; }
      ghost var s := Visible();
      var n0, i := from + len, 0;
      if usebuf {
        var last := |crcrcv|;
        if last > n0 { last := n0; }
        var j := from;
        while j < last
          invariant from <= j && i == j - from && (from <= last ==> j <= last) && (last < from ==> i == 0)
          invariant crcrcv == old(crcrcv)
          invariant i <= buff.Length
          invariant forall k :: 0 <= k < i ==> buff[k] == crcrcv[from + k]
          invariant forall k :: i <= k < buff.Length ==> buff[k] == old(buff[k])
        {
          buff[i] := crcrcv[j];
          i, j := i + 1, j + 1;
        }
        assert i > 0 ==> buff[..i] == s[from..from + i];
        if i > 0 { crcrcv := crcrcv[i..]; }
        n := i;
      } else {
        var m := if bytercv < n0 then bytercv - from else len;
        if m > 0 {
          forall k | 0 <= k < m { buff[k] := bufrcv[from + k]; }
          assert forall k :: 0 <= k < m ==> buff[k] == s[from + k];
          assert buff[..m] == s[from..from + m];
        }
        n := if m > 0 then m else 0;
      }
    }

    /** In buffered mode as many bytes as fit, and a write is started if none is outstanding; without
        the buffer write_some takes at most the `room` the socket has. `wire` lists what it took. */
    method Write(bytes: seq<char>, room: nat) returns (n: nat)
      requires Valid()
      modifies this`crcsnd, this`inflight, this`accepted, this`wire
      ensures Valid()
      ensures usebuf ==> n == if |bytes| <= capacity - |old(crcsnd)| then |bytes| else capacity - |old(crcsnd)|
      ensures usebuf ==> crcsnd == old(crcsnd) + bytes[..n]
      ensures usebuf ==> inflight == if old(crcsnd) == [] && crcsnd != [] then Some(crcsnd) else old(inflight)
      ensures usebuf ==> Sending() == WriteStep(old(Sending()), capacity, bytes) && wire == old(wire)
      ensures !usebuf ==> n == if room < |bytes| then room else |bytes|
      ensures !usebuf ==> Sending() == old(Sending())
      ensures !usebuf ==> wire == if bytes == [] then old(wire) else old(wire) + [bytes[..n]]
    {
      WriteStepKeeps(old(Sending()), capacity, bytes);
      hide SendInvariant, PushBack;
      if |bytes| <= 0 { assert bytes[..0] == []; return 0; }
      if !usebuf {
        n := if room < |bytes| then room else |bytes|;
        wire := wire + [bytes[..n]];
        return;
      }
      var n0 := |crcsnd|;
      n := capacity - n0;
      if n > |bytes| { n := |bytes|; }
      var i := 0;
      while i < n
        invariant 0 <= i <= n && crcsnd == old(crcsnd) + bytes[..i]
        invariant accepted == old(accepted) && inflight == old(inflight) && wire == old(wire)
      {
        PushFits(old(crcsnd), capacity, bytes, i);
        crcsnd := PushBack(crcsnd, capacity, bytes[i]);
        i := i + 1;
      }
      accepted := accepted + bytes[..n];
      if n0 == 0 && n > 0 { inflight := Some(crcsnd); }
    }

    /** `outcome` is the error value the socket's close yields, if it is open. */
    method Close(outcome: int) returns (ec: int)
      modifies this`connected
      ensures !connected && ec == if old(connected) then outcome else 0
    {
      ec := if connected then outcome else 0;
      connected := false;
    }

    /** The completion of the asynchronous write: `n` bytes of the block left, or an error. */
    method HandleWrite(ec: int, n: nat)
      requires Valid() && inflight.Some? && (ec == 0 ==> SendOpEnabled(Sending(), DoSent(n)))
      modifies this`crcsnd, this`inflight, this`sent
      ensures Valid() && Sending() == if ec == 0 then SentStep(old(Sending()), n) else FailStep(old(Sending()))
      ensures crcsnd == if ec == 0 then old(crcsnd)[n..] else old(crcsnd)
      ensures inflight == if ec == 0 && crcsnd != [] then Some(crcsnd) else None
    {
      if ec != 0 {
        inflight := None;
        return;
      }
      SentStepKeeps(Sending(), capacity, n);
      sent := sent + crcsnd[..n];
      crcsnd := crcsnd[n..];
      inflight := if crcsnd == [] then None else Some(crcsnd);
    }

    /** A block arrives: asio fills `bufrcv`, and in buffered mode its bytes go to the ring. */
    method HandleRead(block: seq<char>)
      requires Valid() && |block| <= TCP_PACK_SIZE
      modifies this`bytercv, this`crcrcv, bufrcv
      ensures Valid()
      ensures usebuf ==> crcrcv == Newest(old(crcrcv) + block, capacity) && bytercv == old(bytercv)
      ensures usebuf ==> |crcrcv| == if |old(crcrcv)| + |block| < capacity then |old(crcrcv)| + |block| else capacity
      ensures usebuf ==> crcrcv == (old(crcrcv) + block)[|old(crcrcv)| + |block| - |crcrcv|..]
      ensures !usebuf ==> Visible() == block && crcrcv == old(crcrcv)
    {
      hide SendInvariant, Newest, PushAll, PushBack;
      forall k | 0 <= k < |block| { bufrcv[k] := block[k]; }
      assert bufrcv[..|block|] == block;
      if usebuf {
        var i := 0;
        NoPush(crcrcv, capacity);
        assert block[..0] == [];
        while i < |block|
          invariant 0 <= i <= |block| && |crcrcv| <= capacity
          invariant bytercv == old(bytercv) && bufrcv[..|block|] == block
          invariant crcrcv == PushAll(old(crcrcv), capacity, block[..i])
        {
          assert bufrcv[i] == bufrcv[..|block|][i];
          OnePush(old(crcrcv), capacity, block, i);
          crcrcv := PushBack(crcrcv, capacity, bufrcv[i]);
          i := i + 1;
        }
        assert block[..|block|] == block;
        RingKeepsNewest(old(crcrcv), capacity, block);
        NewestIs(old(crcrcv) + block, capacity);
      } else {
        bytercv := |block|;
      }
    }
  }

  /* ---------- lines out of a buffered stream ---------- */

  /** A consumer that repeats Lookup of a newline and Read of `pos + 1` bytes from 0. */
  datatype Stream = Stream(ring: seq<char>, lines: seq<string>, received: seq<char>)
  datatype StreamOp = Arrive(block: seq<char>) | TakeLine

  function StreamApply(s: Stream, capacity: nat, op: StreamOp): Stream {
    match op
    case Arrive(block) => s.(ring := PushAll(s.ring, capacity, block), received := s.received + block)
    case TakeLine =>
      var pos := FirstMatch(s.ring, "\n", 0);
      var n := ReadCount(|s.ring|, pos + 1, 0);
      if pos == -1 then s else s.(ring := s.ring[n..], lines := s.lines + [s.ring[..n]])
  }

  function StreamRun(capacity: nat, ops: seq<StreamOp>): Stream {
    if ops == [] then Stream([], [], [])
    else StreamApply(StreamRun(capacity, ops[..|ops|-1]), capacity, ops[|ops|-1])
  }

  /** No arrival finds the ring too full. */
  predicate NoOverflow(capacity: nat, ops: seq<StreamOp>) {
    ops == [] ||
    (var init := ops[..|ops|-1];
     NoOverflow(capacity, init)
     && (ops[|ops|-1].Arrive? ==> |StreamRun(capacity, init).ring| + |ops[|ops|-1].block| <= capacity))
  }

  function LinesOf(s: string): seq<string> {
    var i := Find(s, '\n');
    if i == |s| then [] else [s[..i+1]] + LinesOf(s[i+1..])
  }

  function Remainder(s: string): string {
    var i := Find(s, '\n');
    if i == |s| then s else Remainder(s[i+1..])
  }

  function Concat(lines: seq<string>): string {
    if lines == [] then [] else lines[0] + Concat(lines[1..])
  }

  predicate IsLine(t: string) {
    t != "" && Find(t, '\n') == |t| - 1
  }

  lemma {:induction false} LinesAfter(lines: seq<string>, rest: string)
    requires forall i :: 0 <= i < |lines| ==> IsLine(lines[i])
    ensures LinesOf(Concat(lines) + rest) == lines + LinesOf(rest)
    ensures Remainder(Concat(lines) + rest) == Remainder(rest)
  {
    hide IsLine, LinesOf, Remainder;
    if lines == [] {
      assert Concat(lines) + rest == rest && lines + LinesOf(rest) == LinesOf(rest);
    } else {
      var first, others := lines[0], lines[1..];
      LinesAfter(others, rest);
      LineFirst(first, Concat(others) + rest);
      assert Concat(lines) == first + Concat(others) && lines == [first] + others;
      hide *;
      assert (first + Concat(others)) + rest == first + (Concat(others) + rest);
      assert [first] + (others + LinesOf(rest)) == ([first] + others) + LinesOf(rest);
    }
  }

  lemma LineFirst(t: string, more: string)
    requires IsLine(t)
    ensures LinesOf(t + more) == [t] + LinesOf(more) && Remainder(t + more) == Remainder(more)
  {
    var s := t + more;
    assert s[..|t|-1] == t[..|t|-1] && s[|t|-1] == '\n';
    FindUnique(s, '\n', |t| - 1);
    assert s[..|t|] == t && s[|t|..] == more;
  }

  lemma {:induction false} ConcatAppend(lines: seq<string>, t: string)
    ensures Concat(lines + [t]) == Concat(lines) + t
  {
    if lines == [] {
      assert [t][1..] == [];
    } else {
      ConcatAppend(lines[1..], t);
      assert (lines + [t])[1..] == lines[1..] + [t];
    }
  }

  predicate StreamInvariant(s: Stream, capacity: nat) {
    && |s.ring| <= capacity
    && (forall i :: 0 <= i < |s.lines| ==> IsLine(s.lines[i]))
    && Concat(s.lines) + s.ring == s.received
  }

  lemma TakeKeeps(s: Stream, capacity: nat)
    requires StreamInvariant(s, capacity)
    ensures StreamInvariant(StreamApply(s, capacity, TakeLine), capacity)
  {
    hide Concat, Find, FirstMatch;
    FirstNewline(s.ring);
    var pos := Find(s.ring, '\n');
    if pos < |s.ring| {
      var line, rest := s.ring[..pos+1], s.ring[pos+1..];
      assert line[..pos] == s.ring[..pos];
      FindUnique(line, '\n', pos);
      ConcatAppend(s.lines, line);
      Regroup(Concat(s.lines), line, rest);
      assert s.ring == line + rest;
    }
  }

  lemma Regroup(a: string, b: string, c: string)
    ensures a + (b + c) == (a + b) + c
  {
  }

  lemma ArriveKeeps(s: Stream, capacity: nat, block: seq<char>)
    requires StreamInvariant(s, capacity) && |s.ring| + |block| <= capacity
    ensures StreamInvariant(StreamApply(s, capacity, Arrive(block)), capacity)
  {
    RingKeepsNewest(s.ring, capacity, block);
    assert Concat(s.lines) + (s.ring + block) == (Concat(s.lines) + s.ring) + block;
  }

  lemma {:induction false} StreamConserves(capacity: nat, ops: seq<StreamOp>)
    requires NoOverflow(capacity, ops)
    ensures StreamInvariant(StreamRun(capacity, ops), capacity)
  {
    if ops != [] {
      var init := ops[..|ops|-1];
      StreamConserves(capacity, init);
      match ops[|ops|-1]
      case Arrive(block) => ArriveKeeps(StreamRun(capacity, init), capacity, block);
      case TakeLine => TakeKeeps(StreamRun(capacity, init), capacity);
    }
  }

  /** The ring is the end of what was received, at most `capacity` of it. */
  predicate IsEnd(ring: seq<char>, received: seq<char>, capacity: nat) {
    |ring| <= capacity && |ring| <= |received| && ring == received[|received| - |ring|..]
  }

  lemma EndGrows(received: seq<char>, ring: seq<char>, block: seq<char>, capacity: nat)
    requires IsEnd(ring, received, capacity)
    ensures IsEnd(Newest(ring + block, capacity), received + block, capacity)
  {
    assert received + block == received[..|received| - |ring|] + (ring + block);
  }

  lemma EndShrinks(received: seq<char>, ring: seq<char>, n: nat, capacity: nat)
    requires IsEnd(ring, received, capacity) && n <= |ring|
    ensures IsEnd(ring[n..], received, capacity)
  {
  }

  lemma StepKeepsEnd(p: Stream, capacity: nat, op: StreamOp)
    requires IsEnd(p.ring, p.received, capacity)
    ensures var s := StreamApply(p, capacity, op); IsEnd(s.ring, s.received, capacity)
  {
    assert |p.ring| <= capacity;
    hide IsEnd, PushAll, FirstMatch, Newest, ReadCount;
    match op
    case Arrive(block) =>
      RingKeepsNewest(p.ring, capacity, block);
      EndGrows(p.received, p.ring, block, capacity);
    case TakeLine =>
      var n := ReadCount(|p.ring|, FirstMatch(p.ring, "\n", 0) + 1, 0);
      ReadCountFits(|p.ring|, FirstMatch(p.ring, "\n", 0) + 1);
      EndShrinks(p.received, p.ring, n, capacity);
  }

  lemma ReadCountFits(available: nat, len: int)
    ensures ReadCount(available, len, 0) <= available
  {
  }

  /** With or without overflow: the ring is always the end of what was received. */
  lemma {:induction false} RingIsSuffix(capacity: nat, ops: seq<StreamOp>)
    ensures var s := StreamRun(capacity, ops); IsEnd(s.ring, s.received, capacity)
  {
    if ops != [] {
      hide IsEnd, StreamApply;
      RingIsSuffix(capacity, ops[..|ops|-1]);
      StepKeepsEnd(StreamRun(capacity, ops[..|ops|-1]), capacity, ops[|ops|-1]);
    }
  }

  /** What has been taken is a prefix of the stream's lines, what has not follows in the ring, and a
      drained ring has yielded all of them: nothing depends on how the stream was cut up. */
  lemma ChunkingIndependence(capacity: nat, ops: seq<StreamOp>)
    requires NoOverflow(capacity, ops)
    ensures var s := StreamRun(capacity, ops);
            s.lines + LinesOf(s.ring) == LinesOf(s.received) && Concat(s.lines) + s.ring == s.received
    ensures var s := StreamRun(capacity, ops);
            FirstMatch(s.ring, "\n", 0) == -1 ==> s.lines == LinesOf(s.received) && s.ring == Remainder(s.received)
  {
    StreamConserves(capacity, ops);
    var s := StreamRun(capacity, ops);
    LinesAfter(s.lines, s.ring);
    FirstNewline(s.ring);
  }
}
