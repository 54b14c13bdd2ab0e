/** The time client: request and reply packets, offset and delay, the lifetime of an offset and the
    correction of the clock. `double` is modelled as `real`. */
module NtpClient {
  import opened Text

  type Byte = b: int | 0 <= b < 256

  const JAN_1970: int := 0x83AA7E80
  const WORD: int := 0x1_0000_0000
  const UINTMAX: real := 4294967295.0
  const NTP_PCK_LEN: nat := 48

  /** struct timeval, as gettimeofday fills it. */
  datatype TimeVal = TimeVal(sec: int, usec: int)

  predicate ValidTime(tv: TimeVal) {
    0 <= tv.usec < 1_000_000
  }

  datatype Stamp = Stamp(coarse: int, fine: int)

  predicate ValidStamp(st: Stamp) {
    0 <= st.coarse < WORD && 0 <= st.fine < WORD
  }

  /** The first 24 bytes of a packet, less the reference identifier. */
  datatype Head = Head(mode: int, stratum: int, poll: int, precision: int, rootDelay: int, rootDispersion: int,
                       reference: Stamp)

  datatype Packet = Packet(head: Head, originate: Stamp, receive: Stamp, transmit: Stamp)

  const HEAD: Head := Head(0, 0, 0, 0, 0, 0, Stamp(0, 0))

  /* ---------- bytes ---------- */

  /** htonl. */
  function BigEndian(w: int): (r: seq<Byte>)
    requires 0 <= w < WORD
    ensures |r| == 4 && WordAt(r, 0) == w
  {
    [w / 0x100 / 0x100 / 0x100, w / 0x100 / 0x100 % 0x100, w / 0x100 % 0x100, w % 0x100]
  }

  /** ntohl of the word at an address. */
  function WordAt(data: seq<Byte>, at: nat): (r: int)
    requires at + 4 <= |data|
    ensures 0 <= r < WORD
  {
    (data[at] as int) * 0x100_0000 + (data[at + 1] as int) * 0x1_0000 + (data[at + 2] as int) * 0x100 + data[at + 3]
  }

  function StampAt(data: seq<Byte>, at: nat): (r: Stamp)
    requires at + 8 <= |data|
    ensures ValidStamp(r)
  {
    Stamp(WordAt(data, at), WordAt(data, at + 4))
  }

  function StampBytes(st: Stamp): (r: seq<Byte>)
    requires ValidStamp(st)
    ensures |r| == 8
  {
    BigEndian(st.coarse) + BigEndian(st.fine)
  }

  lemma StampRoundTrip(data: seq<Byte>, at: nat, st: Stamp)
    requires at + 8 <= |data| && ValidStamp(st) && data[at..at + 8] == StampBytes(st)
    ensures StampAt(data, at) == st
  {
    var bytes := StampBytes(st);
    assert forall i :: 0 <= i < 4 ==> bytes[i] == BigEndian(st.coarse)[i] && bytes[i + 4] == BigEndian(st.fine)[i];
    forall i | 0 <= i < 8 ensures bytes[i] == data[at + i] { assert data[at..at + 8][i] == data[at + i]; }
    assert data[at] == bytes[0] && data[at + 4] == bytes[4];
  }

  /** The stamp a request carries: whole seconds wrap at 2^32, the fraction is cut off. */
  function LocalStamp(tv: TimeVal): (r: Stamp)
    requires ValidTime(tv)
    ensures ValidStamp(r)
  {
    Stamp((JAN_1970 + tv.sec) % WORD, (tv.usec as real * UINTMAX * 0.000001).Floor)
  }

  function Zeroes(n: nat): (r: seq<Byte>)
    ensures |r| == n && forall i :: 0 <= i < n ==> r[i] == 0
  {
    if n == 0 then [] else Zeroes(n - 1) + [0]
  }

  /** Version 4, client mode, the poll interval and the precision, and the two roots. */
  const REQUEST_HEAD: seq<Byte> := BigEndian(0x2300_04FA) + BigEndian(0x1_0000) + BigEndian(0x1_0000)

  function Request(tv: TimeVal): (r: seq<Byte>)
    requires ValidTime(tv)
    ensures |r| == NTP_PCK_LEN
  {
    REQUEST_HEAD + Zeroes(28) + StampBytes(LocalStamp(tv))
  }

  function PutWord(data: seq<Byte>, at: nat, w: int): (r: seq<Byte>)
    requires at + 8 <= |data| && 0 <= w < WORD
    ensures |r| == |data|
  {
    Overwrite(data, at, BigEndian(w) + [0, 0, 0, 0])
  }

  /** The five overlapping copies leave the request in the first 48 bytes. */
  lemma RequestInPlace(start: seq<Byte>, tv: TimeVal)
    requires |start| >= NTP_PCK_LEN + 4 && ValidTime(tv)
    requires forall i :: 0 <= i < NTP_PCK_LEN ==> start[i] == 0
    ensures var st := LocalStamp(tv);
            PutWord(PutWord(PutWord(PutWord(PutWord(start, 0, 0x2300_04FA), 4, 0x1_0000), 8, 0x1_0000),
                            40, st.coarse), 44, st.fine)
              [..NTP_PCK_LEN] == Request(tv)
  {
    hide BigEndian, LocalStamp;
    var a := PutWord(PutWord(PutWord(start, 0, 0x2300_04FA), 4, 0x1_0000), 8, 0x1_0000);
    assert a[..12] == REQUEST_HEAD;
    assert forall i :: 12 <= i < 40 ==> a[i] == 0;
    assert a[12..40] == Zeroes(28);
    var b := PutWord(PutWord(a, 40, LocalStamp(tv).coarse), 44, LocalStamp(tv).fine);
    assert b[..40] == a[..40];
    assert b[40..48] == StampBytes(LocalStamp(tv));
    assert b[..NTP_PCK_LEN] == a[..12] + a[12..40] + b[40..48];
  }

  /** Conversion of an unsigned byte or word to a signed one. */
  function Signed(w: int, modulus: int): (r: int)
    requires 0 <= w < modulus && modulus % 2 == 0
    ensures -(modulus / 2) <= r < modulus / 2 && (r == w || r == w - modulus)
  {
    if w < modulus / 2 then w else w - modulus
  }

  function HeadOf(data: seq<Byte>): Head
    requires |data| >= 24
  {
    Head(data[0], data[1], Signed(data[2], 0x100), Signed(data[3], 0x100), Signed(WordAt(data, 4), WORD),
         Signed(WordAt(data, 8), WORD), StampAt(data, 16))
  }

  /** The fields of the head by their bytes, section 7.3 of RFC 5905. */
  lemma HeadBytes(data: seq<Byte>)
    requires |data| >= NTP_PCK_LEN
    ensures var h := Decode(data).head;
            h.mode == data[0] && h.stratum == data[1]
            && h.poll == (if data[2] < 128 then data[2] as int else data[2] as int - 256)
            && h.precision == (if data[3] < 128 then data[3] as int else data[3] as int - 256)
            && h.rootDelay % 0x1_0000_0000 ==
               (data[4] as int) * 0x100_0000 + (data[5] as int) * 0x1_0000 + (data[6] as int) * 0x100 + data[7]
            && -0x8000_0000 <= h.rootDelay < 0x8000_0000
            && h.rootDispersion % 0x1_0000_0000 ==
               (data[8] as int) * 0x100_0000 + (data[9] as int) * 0x1_0000 + (data[10] as int) * 0x100 + data[11]
            && -0x8000_0000 <= h.rootDispersion < 0x8000_0000
            && h.reference.coarse ==
               (data[16] as int) * 0x100_0000 + (data[17] as int) * 0x1_0000 + (data[18] as int) * 0x100 + data[19]
            && h.reference.fine ==
               (data[20] as int) * 0x100_0000 + (data[21] as int) * 0x1_0000 + (data[22] as int) * 0x100 + data[23]
  {
    SignedWord(WordAt(data, 4));
    SignedWord(WordAt(data, 8));
  }

  /** What a server reads in a request: version 4, client mode, the poll interval 4, the precision -6,
      both roots one second, and the time of sending. */
  lemma RequestDecoded(tv: TimeVal)
    requires ValidTime(tv)
    ensures Decode(Request(tv)) ==
            Packet(Head(4 * 8 + 3, 0, 4, -6, 0x1_0000, 0x1_0000, Stamp(0, 0)), Stamp(0, 0), Stamp(0, 0), LocalStamp(tv))
  {
    var data := Request(tv);
    hide LocalStamp;
    assert data[40..48] == StampBytes(LocalStamp(tv));
    StampRoundTrip(data, 40, LocalStamp(tv));
    assert forall i :: 12 <= i < 40 ==> data[i] == Zeroes(28)[i - 12];
    assert forall i :: 0 <= i < 12 ==> data[i] == REQUEST_HEAD[i];
    hide Request;
    assert data[0] == 0x23 && data[1] == 0 && data[2] == 4 && data[3] == 0xFA;
    assert WordAt(data, 4) == 0x1_0000 && WordAt(data, 8) == 0x1_0000;
  }

  lemma SignedWord(w: int)
    requires 0 <= w < WORD
    ensures Signed(w, WORD) % WORD == w && -0x8000_0000 <= Signed(w, WORD) < 0x8000_0000
  {
  }

  /** What is in the buffer after a reply was laid over the request; a short one leaves its end. */
  function Received(request: seq<Byte>, reply: seq<Byte>): (r: seq<Byte>)
    ensures |r| >= |request| && |r| >= |reply|
    ensures forall i :: 0 <= i < |r| ==>
              r[i] == if i < |reply| then reply[i] else if i < |request| then request[i] else 0
  {
    reply + if |reply| < |request| then request[|reply|..] else []
  }

  /** Only the first 48 bytes matter. */
  lemma DecodePrefix(a: seq<Byte>, b: seq<Byte>)
    requires |a| >= NTP_PCK_LEN && |b| >= NTP_PCK_LEN && a[..NTP_PCK_LEN] == b[..NTP_PCK_LEN]
    ensures Decode(a) == Decode(b)
  {
    assert forall i :: 0 <= i < NTP_PCK_LEN ==> a[i] == a[..NTP_PCK_LEN][i] && b[i] == b[..NTP_PCK_LEN][i];
  }

  function Decode(data: seq<Byte>): Packet
    requires |data| >= NTP_PCK_LEN
  {
    Packet(HeadOf(data), StampAt(data, 24), StampAt(data, 32), StampAt(data, 40))
  }

  /** What a server answers, section 8 of RFC 5905: the request's transmit stamp comes back as the
      originate stamp, with the server's own two behind it. */
  function Reply(head: seq<Byte>, request: seq<Byte>, receive: Stamp, transmit: Stamp): (r: seq<Byte>)
    requires |head| == 24 && |request| == NTP_PCK_LEN && ValidStamp(receive) && ValidStamp(transmit)
    ensures |r| == NTP_PCK_LEN
  {
    head + request[40..48] + StampBytes(receive) + StampBytes(transmit)
  }

  /** The client gets back its own stamp and the server's header and two stamps. */
  lemma ExchangeRoundTrip(tv: TimeVal, head: seq<Byte>, receive: Stamp, transmit: Stamp)
    requires ValidTime(tv) && |head| == 24 && ValidStamp(receive) && ValidStamp(transmit)
    ensures Decode(Reply(head, Request(tv), receive, transmit)) ==
            Packet(HeadOf(head), LocalStamp(tv), receive, transmit)
  {
    var reply := Reply(head, Request(tv), receive, transmit);
    assert Request(tv)[40..48] == StampBytes(LocalStamp(tv));
    assert reply[24..32] == StampBytes(LocalStamp(tv));
    assert reply[32..40] == StampBytes(receive);
    assert reply[40..48] == StampBytes(transmit);
    StampRoundTrip(reply, 24, LocalStamp(tv));
    StampRoundTrip(reply, 32, receive);
    StampRoundTrip(reply, 40, transmit);
  }

  /* ---------- offset and delay ---------- */

  /** How the client reads a stamp. The fraction counts 2^32 parts, but is divided by 2^32 - 1. */
  function Seconds(st: Stamp): real {
    st.coarse as real + st.fine as real / UINTMAX
  }

  /** The local clock in seconds since 1900. */
  function Local(tv: TimeVal): real {
    (JAN_1970 + tv.sec) as real + tv.usec as real * 0.000001
  }

  function Offset(p: Packet, now: TimeVal): real {
    ((Seconds(p.receive) - Seconds(p.originate)) + (Seconds(p.transmit) - Local(now))) * 0.5
  }

  function Delay(p: Packet, now: TimeVal): real {
    (Local(now) - Seconds(p.originate)) - (Seconds(p.transmit) - Seconds(p.receive))
  }

  /** A request sent at `send` and answered at `receive` on the local clock; the server's clock is
      `theta` ahead, and the two ways take `up` and `down`. */
  datatype Exchange = Exchange(send: TimeVal, receive: TimeVal, up: real, down: real, theta: real)

  /** `st` is the stamp of the instant `x`, section 6 of RFC 5905, in the era `era`. */
  predicate StampOf(st: Stamp, x: real, era: int) {
    ValidStamp(st) && x == st.coarse as real + st.fine as real / 4294967296.0 + era as real * 4294967296.0
  }

  ghost predicate Observed(x: Exchange, p: Packet, arrived: int, replied: int) {
    && ValidTime(x.send) && ValidTime(x.receive) && p.originate == LocalStamp(x.send)
    && StampOf(p.receive, Local(x.send) + x.up + x.theta, arrived)
    && StampOf(p.transmit, Local(x.receive) - x.down + x.theta, replied)
  }

  function Era(tv: TimeVal): int {
    (JAN_1970 + tv.sec) / WORD
  }

  const CODING_ERROR: real := 3.0 / (2.0 * UINTMAX)

  lemma LocalStampError(tv: TimeVal)
    requires ValidTime(tv)
    ensures var e := Local(tv) - Seconds(LocalStamp(tv)) - Era(tv) as real * 4294967296.0; 0.0 <= e < 1.0 / UINTMAX
  {
    var n := JAN_1970 + tv.sec;
    assert n == n / WORD * WORD + n % WORD;
    assert (n / WORD * WORD) as real == (n / WORD) as real * 4294967296.0;
  }

  lemma StampError(st: Stamp, x: real, era: int)
    requires StampOf(st, x, era)
    ensures var e := Seconds(st) - (x - era as real * 4294967296.0); 0.0 <= e < 1.0 / UINTMAX
  {
  }

  /** The error of the offset, exactly up to the coding of the stamps: half the difference of the two
      ways, and 2^31 seconds for every era that the subtraction does not cancel. */
  lemma OffsetError(x: Exchange, p: Packet, arrived: int, replied: int)
    requires Observed(x, p, arrived, replied)
    ensures var err := Offset(p, x.receive) - x.theta;
            var bias := (x.up - x.down) * 0.5 - (arrived + replied - Era(x.send)) as real * 2147483648.0;
            bias <= err < bias + CODING_ERROR
  {
    LocalStampError(x.send);
    StampError(p.receive, Local(x.send) + x.up + x.theta, arrived);
    StampError(p.transmit, Local(x.receive) - x.down + x.theta, replied);
  }

  /** The error of the delay, exactly up to the coding of the stamps: 2^32 seconds for every era that
      the subtraction does not cancel. */
  lemma DelayError(x: Exchange, p: Packet, arrived: int, replied: int)
    requires Observed(x, p, arrived, replied)
    ensures var err := Delay(p, x.receive) - (x.up + x.down);
            var bias := (Era(x.send) + replied - arrived) as real * 4294967296.0;
            bias - 1.0 / UINTMAX < err < bias + 2.0 / UINTMAX
  {
    LocalStampError(x.send);
    StampError(p.receive, Local(x.send) + x.up + x.theta, arrived);
    StampError(p.transmit, Local(x.receive) - x.down + x.theta, replied);
  }

  /** The offset is within half the round trip of the true one exactly when the eras cancel. */
  lemma ClockBound(x: Exchange, p: Packet, arrived: int, replied: int)
    requires Observed(x, p, arrived, replied)
    requires x.up >= 0.0 && x.down >= 0.0 && x.up + x.down < 2147483647.0
    ensures var err := Offset(p, x.receive) - x.theta;
            var bound := (x.up + x.down) * 0.5 + CODING_ERROR;
            -bound <= err <= bound <==> arrived + replied == Era(x.send)
  {
    OffsetError(x, p, arrived, replied);
    hide Offset, Observed, Era;
    var k := arrived + replied - Era(x.send);
    if k >= 1 { assert k as real >= 1.0; } else if k <= -1 { assert k as real <= -1.0; }
  }

  /** Where the server's clock is in the local clock's era, the local clock alone tells: the bound
      holds exactly up to the rollover of 2036. */
  lemma BoundBeforeRollover(x: Exchange, p: Packet)
    requires Observed(x, p, Era(x.send), Era(x.send))
    requires x.up >= 0.0 && x.down >= 0.0 && x.up + x.down < 2147483647.0
    ensures var err := Offset(p, x.receive) - x.theta;
            var bound := (x.up + x.down) * 0.5 + CODING_ERROR;
            -bound <= err <= bound <==> 0 <= JAN_1970 + x.send.sec < WORD
  {
    ClockBound(x, p, Era(x.send), Era(x.send));
    hide Offset, Observed;
  }

  /** The first second past the rollover: two clocks that agree, no delay, and an offset of -2^31 s. */
  lemma RolloverBreaksTheOffset()
    ensures var tv := TimeVal(WORD - JAN_1970, 0);
            var p := Packet(HEAD, LocalStamp(tv), LocalStamp(tv), LocalStamp(tv));
            Observed(Exchange(tv, tv, 0.0, 0.0, 0.0), p, 1, 1) && Offset(p, tv) == -2147483648.0
  {
  }

  /** What the client decodes from a server's answer is such an observation. */
  lemma AnswerIsObserved(x: Exchange, head: seq<Byte>, receive: Stamp, transmit: Stamp, arrived: int, replied: int)
    requires ValidTime(x.send) && ValidTime(x.receive) && |head| == 24
    requires StampOf(receive, Local(x.send) + x.up + x.theta, arrived)
    requires StampOf(transmit, Local(x.receive) - x.down + x.theta, replied)
    ensures var request := Request(x.send);
            Observed(x, Decode(Received(request, Reply(head, request, receive, transmit))), arrived, replied)
  {
    hide Request, Decode, Reply, Local;
    var reply := Reply(head, Request(x.send), receive, transmit);
    assert Received(Request(x.send), reply) == reply;
    ExchangeRoundTrip(x.send, head, receive, transmit);
  }

  /* ---------- the correction ---------- */

  /** The conversion of a double to an integer. */
  function Trunc(x: real): (r: int)
    ensures x >= 0.0 ==> r as real <= x < r as real + 1.0
    ensures x <= 0.0 ==> r as real - 1.0 < x <= r as real
  {
    if x >= 0.0 then x.Floor else -((-x).Floor)
  }

  function Unix(tv: TimeVal): real {
    tv.sec as real + tv.usec as real * 0.000001
  }

  function Corrected(tv: TimeVal, offset: real): TimeVal {
    var t := Unix(tv) + offset;
    TimeVal(Trunc(t), Trunc((t - Trunc(t) as real) * 1000000.0))
  }

  /** The new setting is within a microsecond of the wanted instant, towards 1970. Its microseconds are
      a legal field exactly when the instant is not a microsecond or more short of a whole second
      before 1970. */
  lemma CorrectedError(tv: TimeVal, offset: real)
    ensures var t, c := Unix(tv) + offset, Corrected(tv, offset);
            (t >= 0.0 ==> 0.0 <= t - Unix(c) < 0.000001)
            && (t <= 0.0 ==> -0.000001 < t - Unix(c) <= 0.0)
            && (ValidTime(c) <==> t - c.sec as real > -0.000001)
            && (t >= 0.0 ==> ValidTime(c))
  {
  }

  /** After a correction by an observed offset the clock is as close to the server's as the exchange
      allows. */
  lemma SynchronisedClock(x: Exchange, p: Packet, tv: TimeVal, arrived: int, replied: int)
    requires Observed(x, p, arrived, replied) && arrived + replied == Era(x.send)
    requires x.up >= 0.0 && x.down >= 0.0
    ensures var err := Unix(Corrected(tv, Offset(p, x.receive))) - (Unix(tv) + x.theta);
            var bound := (x.up + x.down) * 0.5 + CODING_ERROR + 0.000001;
            -bound < err < bound
  {
    OffsetError(x, p, arrived, replied);
    CorrectedError(tv, Offset(p, x.receive));
    hide Offset, Observed, Era, Corrected, Unix;
  }

  /* ---------- the lifetime of an offset ---------- */

  datatype Poll = Answered(offset: real) | Failed | Synch

  datatype State = State(offset: real, valid: bool, nfail: nat)

  predicate Drifts(offset: real, tSync: real) {
    offset >= tSync || offset <= -tSync
  }

  function AfterSynch(s: State, tSync: real): State {
    if s.valid && Drifts(s.offset, tSync) then s.(valid := false) else s
  }

  function Apply(s: State, e: Poll, tSync: real, autoSync: bool): State {
    match e
    case Answered(offset) =>
      var s1 := State(offset, true, 0);
      if autoSync then AfterSynch(s1, tSync) else s1
    case Failed => State(s.offset, s.valid && s.nfail + 1 < 5, s.nfail + 1)
    case Synch => AfterSynch(s, tSync)
  }

  function After(es: seq<Poll>, tSync: real, autoSync: bool): State {
    if es == [] then State(0.0, false, 0)
    else Apply(After(es[..|es|-1], tSync, autoSync), es[|es|-1], tSync, autoSync)
  }

  /** The latest answer, at most `failures` failed polls ago, was not yet used for a correction. */
  predicate Unused(es: seq<Poll>, failures: nat, offset: real, tSync: real, autoSync: bool) {
    es != [] &&
    match es[|es|-1]
    case Answered(o) => o == offset && !(autoSync && Drifts(offset, tSync))
    case Failed => failures > 0 && Unused(es[..|es|-1], failures - 1, offset, tSync, autoSync)
    case Synch => Unused(es[..|es|-1], failures, offset, tSync, autoSync) && !Drifts(offset, tSync)
  }

  /** In every run: the offset may be used exactly when it is the latest answer's, that answer is at
      most four failed polls old, and no correction has used it. */
  lemma ValidExactly(es: seq<Poll>, tSync: real, autoSync: bool)
    ensures var s := After(es, tSync, autoSync); s.valid <==> Unused(es, 4, s.offset, tSync, autoSync)
  {
    LifetimeStep(es, 4, tSync, autoSync);
    assert After(es, tSync, autoSync).valid ==> After(es, tSync, autoSync).nfail <= 4;
  }

  lemma {:induction false} LifetimeStep(es: seq<Poll>, failures: nat, tSync: real, autoSync: bool)
    requires failures <= 4
    ensures var s := After(es, tSync, autoSync);
            (s.valid && s.nfail <= failures <==> Unused(es, failures, s.offset, tSync, autoSync))
            && (s.valid ==> s.nfail <= 4)
  {
    if es != [] {
      var init := es[..|es|-1];
      LifetimeStep(init, failures, tSync, autoSync);
      if failures > 0 { LifetimeStep(init, failures - 1, tSync, autoSync); }
    }
  }

  /** Where the client corrects by itself, an offset it leaves standing is smaller than the limit. */
  lemma {:induction false} StandingIsSmall(es: seq<Poll>, tSync: real)
    ensures var s := After(es, tSync, true); s.valid ==> -tSync < s.offset < tSync
  {
    if es != [] { StandingIsSmall(es[..|es|-1], tSync); }
  }

  /* ---------- the object ---------- */

  /** What becomes of a request. */
  datatype Outcome = SendFails | Silence | ReceiveFails | Arrives(bytes: seq<Byte>)

  class NtpClient {
    const pack: array<Byte>
    var sockOpen: bool
    var offset: real
    var valid: bool
    var nfail: nat
    var autoSync: bool
    var tSync: real

    ghost predicate Valid() {
      pack.Length == NTP_PCK_LEN * 8
    }

    ghost function Value(): State
      reads this
    {
      State(offset, valid, nfail)
    }

    constructor (milliseconds: int)
      ensures Valid() && Value() == After([], tSync, autoSync) && fresh(pack)
      ensures !sockOpen && !autoSync && tSync == milliseconds as real * 0.001
    {
      pack := new Byte[NTP_PCK_LEN * 8];
      tSync, offset, valid, nfail := milliseconds as real * 0.001, 0.0, false, 0;
      sockOpen, autoSync := false, false;
    }

    /** memcpy of a `long` that holds a 32-bit word in network order: the word and four zero bytes. */
    method PutLong(at: nat, w: int)
      requires Valid() && at + 8 <= pack.Length && 0 <= w < WORD
      modifies pack
      ensures pack[..] == PutWord(old(pack[..]), at, w)
    {
      var bytes := BigEndian(w) + [0, 0, 0, 0];
      forall i | 0 <= i < 8 { pack[at + i] := bytes[i]; }
    }

    method ConstructPacket(tv: TimeVal)
      requires Valid() && ValidTime(tv)
      modifies pack
      ensures pack[..NTP_PCK_LEN] == Request(tv)
    {
      forall i | 0 <= i < NTP_PCK_LEN { pack[i] := 0; }
      ghost var start := pack[..];
      PutLong(0, 0x2300_04FA);
      PutLong(4, 0x1_0000);
      PutLong(8, 0x1_0000);
      PutLong(40, LocalStamp(tv).coarse);
      PutLong(44, LocalStamp(tv).fine);
      RequestInPlace(start, tv);
    }

    /** One request on the open socket. What arrives is laid over the request; an error of the socket
        closes it. */
    method GetTime(tv: TimeVal, outcome: Outcome) returns (ok: bool, p: Packet)
      requires Valid() && ValidTime(tv) && sockOpen
      requires outcome.Arrives? ==> |outcome.bytes| <= pack.Length
      modifies this`sockOpen, this`valid, this`nfail, pack
      ensures ok == outcome.Arrives? && sockOpen == !(outcome.SendFails? || outcome.ReceiveFails?)
      ensures if ok then valid && nfail == 0 else valid == old(valid) && nfail == old(nfail)
      ensures ok ==> p == Decode(Received(Request(tv), outcome.bytes))
    {
      hide Request, Decode, LocalStamp;
      ConstructPacket(tv);
      ok := false;
      p := Packet(HEAD, Stamp(0, 0), Stamp(0, 0), Stamp(0, 0));
      match outcome {
        case SendFails => sockOpen := false;
        case Silence =>
        case ReceiveFails => sockOpen := false;
        case Arrives(bytes) =>
          forall i | 0 <= i < |bytes| { pack[i] := bytes[i]; }
          valid, nfail, ok := true, 0, true;
          p := Decode(pack[..]);
          assert pack[..][..NTP_PCK_LEN] == Received(Request(tv), bytes)[..NTP_PCK_LEN];
          DecodePrefix(pack[..], Received(Request(tv), bytes));
      }
    }

    /** `tv` is what gettimeofday says; the result is what settimeofday is given, if it is called. */
    method SynchClock(tv: TimeVal) returns (setting: Option<TimeVal>)
      modifies this`valid
      ensures Value() == AfterSynch(old(Value()), tSync)
      ensures setting == if old(valid) && (offset >= tSync || offset <= -tSync) then Some(Corrected(tv, offset))
                         else None
      ensures valid == (old(valid) && -tSync < offset < tSync)
    {
      setting := None;
      if valid && (offset >= tSync || offset <= -tSync) {
        var t := tv.sec as real + tv.usec as real * 0.000001 + offset;
        var sec := Trunc(t);
        setting := Some(TimeVal(sec, Trunc((t - sec as real) * 1000000.0)));
        valid := false;
      }
    }

    /** One turn of thread_body, with the clock as it reads at the request, at the reply and at the
        correction. `connects` says whether a closed socket can be opened; if not, nothing happens. */
    method PollServer(connects: bool, sent: TimeVal, outcome: Outcome, received: TimeVal, read: TimeVal)
        returns (ok: bool, p: Packet, setting: Option<TimeVal>)
      requires Valid() && ValidTime(sent)
      requires outcome.Arrives? ==> |outcome.bytes| <= pack.Length
      modifies this`sockOpen, this`offset, this`valid, this`nfail, pack
      ensures var open := old(sockOpen) || connects;
              ok == (open && outcome.Arrives?)
              && sockOpen == (open && !outcome.SendFails? && !outcome.ReceiveFails?)
              && Value() == if !open then old(Value())
                            else Apply(old(Value()), if ok then Answered(Offset(p, received)) else Failed,
                                       tSync, autoSync)
      ensures ok ==> p == Decode(Received(Request(sent), outcome.bytes))
      ensures setting == if ok && autoSync && (offset >= tSync || offset <= -tSync) then Some(Corrected(read, offset))
                         else None
      ensures ok ==> valid == (!autoSync || -tSync < offset < tSync)
    {
      setting, ok, p := None, false, Packet(HEAD, Stamp(0, 0), Stamp(0, 0), Stamp(0, 0));
      if !sockOpen {
        if !connects { return; }
        sockOpen := true;
      }
      ok, p := GetTime(sent, outcome);
      if ok {
        var t1, t2, t3, t4 := Seconds(p.originate), Seconds(p.receive), Seconds(p.transmit), Local(received);
        offset := ((t2 - t1) + (t3 - t4)) * 0.5;
        if offset >= tSync || offset <= -tSync {
          if autoSync { setting := SynchClock(read); }
        }
      } else {
        nfail := nfail + 1;
        if nfail >= 5 && valid { valid := false; }
      }
    }
  }
}
