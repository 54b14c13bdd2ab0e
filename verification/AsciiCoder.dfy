/** The coder object: output slots used in rotation, strings built by appending, and the loops that
    resolve a received line. Its methods are proved against the functions of AsciiProtocol. */
module AsciiCoder {
  import opened Text
  import opened AsciiProtocol
  import opened AsciiDispatch
  import opened AsciiNumbers
  import AsciiText

  const SLOT_SIZE: nat := 1024
  const SLOT_COUNT: nat := 10

  /* ---------- the slot ring as a value ---------- */

  datatype Slots = Slots(next: nat, chars: seq<char>)

  predicate ValidSlots(st: Slots) {
    st.next < SLOT_COUNT && |st.chars| == SLOT_SIZE * SLOT_COUNT
  }

  /** A line, its newline and the closing NUL fit in one slot. */
  predicate Fits(line: string) {
    Lacks(line, NUL) && |line| + 1 <= SLOT_SIZE
  }

  function Emit(st: Slots, line: string): (r: Slots)
    requires ValidSlots(st) && Fits(line)
    ensures ValidSlots(r) && r.next == (st.next + 1) % SLOT_COUNT
  {
    Slots(if st.next + 1 == SLOT_COUNT then 0 else st.next + 1,
          Overwrite(st.chars, st.next * SLOT_SIZE, line + [NUL]))
  }

  function EmitAll(st: Slots, lines: seq<string>): (r: Slots)
    requires ValidSlots(st) && forall i :: 0 <= i < |lines| ==> Fits(lines[i])
    ensures ValidSlots(r)
  {
    if lines == [] then st else Emit(EmitAll(st, lines[..|lines|-1]), lines[|lines|-1])
  }

  /** The C string a caller reads from a slot. */
  function TextAt(st: Slots, slot: nat): string
    requires ValidSlots(st) && slot < SLOT_COUNT
  {
    CString(st.chars[slot * SLOT_SIZE..(slot + 1) * SLOT_SIZE])
  }

  lemma WrittenBytes(st: Slots, line: string)
    requires ValidSlots(st) && Fits(line)
    ensures var at := st.next * SLOT_SIZE;
            var mine := Emit(st, line).chars[at..at + SLOT_SIZE];
            mine[..|line|] == line && mine[|line|] == NUL
  {
    hide Lacks;
    var at, text := st.next * SLOT_SIZE, line + [NUL];
    var chars := Overwrite(st.chars, at, text);
    assert forall i :: 0 <= i < |text| ==> chars[at + i] == text[i];
    var mine := chars[at..at + SLOT_SIZE];
    assert forall i :: 0 <= i < |text| ==> mine[i] == text[i];
    hide *;
    assert mine[..|line|] == line;
  }

  lemma EmitWrites(st: Slots, line: string)
    requires ValidSlots(st) && Fits(line)
    ensures TextAt(Emit(st, line), st.next) == line
  {
    var at := st.next * SLOT_SIZE;
    var mine := Emit(st, line).chars[at..at + SLOT_SIZE];
    hide Emit;
    WrittenBytes(st, line);
    FindUnique(mine, NUL, |line|);
  }

  /** A write stays inside its own slot. */
  lemma EmitKeeps(st: Slots, line: string, slot: nat)
    requires ValidSlots(st) && Fits(line) && slot < SLOT_COUNT && slot != st.next
    ensures var lo, hi := slot * SLOT_SIZE, (slot + 1) * SLOT_SIZE;
            Emit(st, line).chars[lo..hi] == st.chars[lo..hi]
  {
  }

  lemma {:induction false} NextSlot(st: Slots, lines: seq<string>)
    requires ValidSlots(st) && forall i :: 0 <= i < |lines| ==> Fits(lines[i])
    ensures EmitAll(st, lines).next == (st.next + |lines|) % SLOT_COUNT
  {
    hide Fits;
    if lines != [] { NextSlot(st, lines[..|lines|-1]); }
  }

  lemma Rotation(start: nat, first: nat, next: nat, calls: nat)
    requires start < SLOT_COUNT && calls < SLOT_COUNT
    requires first == (start + 1) % SLOT_COUNT && next == (first + calls) % SLOT_COUNT
    ensures next == start <==> calls == SLOT_COUNT - 1
  {
  }

  lemma SlotComesRound(st: Slots, line: string, later: seq<string>)
    requires ValidSlots(st) && Fits(line) && forall i :: 0 <= i < |later| ==> Fits(later[i])
    requires |later| < SLOT_COUNT
    ensures EmitAll(Emit(st, line), later).next == st.next <==> |later| == SLOT_COUNT - 1
  {
    hide Emit, EmitAll, Fits;
    var first := Emit(st, line);
    NextSlot(first, later);
    Rotation(st.next, first.next, EmitAll(first, later).next, |later|);
  }

  /** A returned buffer keeps its text through the next nine calls, and loses it to the tenth. */
  lemma {:induction false} SlotLifetime(st: Slots, line: string, later: seq<string>)
    requires ValidSlots(st) && Fits(line) && forall i :: 0 <= i < |later| ==> Fits(later[i])
    requires |later| <= SLOT_COUNT
    ensures TextAt(EmitAll(Emit(st, line), later), st.next)
         == if |later| < SLOT_COUNT then line else later[SLOT_COUNT - 1]
  {
    if later == [] {
      EmitWrites(st, line);
    } else {
      var init, last := later[..|later|-1], later[|later|-1];
      var before := EmitAll(Emit(st, line), init);
      SlotLifetime(st, line, init);
      SlotComesRound(st, line, init);
      assert EmitAll(Emit(st, line), later) == Emit(before, last);
      hide Emit, EmitAll, CString, Fits;
      if |init| == SLOT_COUNT - 1 { EmitWrites(before, last); } else { EmitKeeps(before, last, st.next); }
    }
  }

  /* ---------- the object ---------- */

  class Coder {
    var ibuf: nat
    const buff: array<char>

    ghost predicate Valid()
      reads this, buff
    {
      ValidSlots(Value())
    }

    ghost function Value(): Slots
      reads this, buff
    {
      Slots(ibuf, buff[..])
    }

    constructor ()
      ensures Valid() && ibuf == 0 && fresh(buff)
    {
      ibuf := 0;
      buff := new char[SLOT_SIZE * SLOT_COUNT];
    }

    /** sprintf of the text and a newline into the current slot. */
    method OutputCompacted(s: string) returns (slot: nat, n: nat)
      requires Valid() && |CString(s)| <= SLOT_SIZE - 2
      modifies this`ibuf, buff
      ensures Valid() && slot == old(ibuf) && n == |CString(s)| + 1
      ensures Value() == Emit(old(Value()), CString(s) + "\n")
    {
      slot := ibuf;
      var at := ibuf * SLOT_SIZE;
      ibuf := ibuf + 1;
      if ibuf == SLOT_COUNT { ibuf := 0; }
      var text := CString(s) + "\n" + [NUL];
      forall i | 0 <= i < |text| {
        buff[at + i] := text[i];
      }
      n := |text| - 1;
      assert buff[..] == Overwrite(old(buff[..]), at, text);
    }

    method CompactBase(m: Message) returns (output: string)
      ensures output == m.typ + " utc=" + m.utc + ","
                        + (if m.gid == "" then "" else "gid=" + m.gid + ",")
                        + (if m.uid == "" then "" else "uid=" + m.uid + ",")
                        + (if m.cid == "" then "" else "cid=" + m.cid + ",")
      ensures output == m.typ + " " + JoinKvs(BasePairs(m))
    {
      AsciiText.BaseIsText(m);
      hide JoinKv, JoinKvs;
      output := m.typ + " ";
      output := output + JoinKv(KeyVal("utc", m.utc));
      Printed(m.typ, [], KeyVal("utc", m.utc));
      ghost var kvs := [KeyVal("utc", m.utc)];
      if m.gid != "" {
        output := output + JoinKv(KeyVal("gid", m.gid));
        Printed(m.typ, kvs, KeyVal("gid", m.gid));
      }
      assert m.gid == "" ==> kvs + Optional("gid", m.gid) == kvs;
      kvs := kvs + Optional("gid", m.gid);
      if m.uid != "" {
        output := output + JoinKv(KeyVal("uid", m.uid));
        Printed(m.typ, kvs, KeyVal("uid", m.uid));
      }
      assert m.uid == "" ==> kvs + Optional("uid", m.uid) == kvs;
      kvs := kvs + Optional("uid", m.uid);
      if m.cid != "" {
        output := output + JoinKv(KeyVal("cid", m.cid));
        Printed(m.typ, kvs, KeyVal("cid", m.cid));
      }
      assert m.cid == "" ==> kvs + Optional("cid", m.cid) == kvs;
    }

    /** CompactFileInfo, CompactFileStat and CompactTrack: refresh the time tag, print the common
        items and then the message's own fields, trim, and write the next slot. */
    method CompactMessage(m: Message, now: string) returns (slot: nat, n: nat)
      requires Valid() && !m.fields.Deferred? && |Compact(m, now)| <= SLOT_SIZE - 1
      modifies this`ibuf, buff
      ensures Valid() && slot == old(ibuf) && n == |Compact(m, now)| && n > 0
      ensures Value() == Emit(old(Value()), Compact(m, now))
      ensures TextAt(Value(), slot) == Compact(m, now)
    {
      var stamped := m.(utc := now);
      var base := CompactBase(stamped);
      var output := JoinFields(base, m.typ, BasePairs(stamped), FieldPairs(m.fields));
      var trimmed := TrimRight(output, IsPunctOrSpace);
      assert CString(trimmed) + "\n" == Compact(m, now);
      slot, n := OutputCompacted(trimmed);
      EmitWrites(old(Value()), Compact(m, now));
    }

    /** The join_kv calls of one message, in order. */
    method JoinFields(base: string, typ: string, ghost common: seq<KeyVal>, pairs: seq<KeyVal>) returns (output: string)
      requires base == typ + " " + JoinKvs(common)
      ensures output == typ + " " + JoinKvs(common + pairs)
    {
      hide JoinKv, JoinKvs;
      output := base;
      assert common + pairs[..0] == common;
      for i := 0 to |pairs|
        invariant output == typ + " " + JoinKvs(common + pairs[..i])
      {
        assert common + pairs[..i+1] == (common + pairs[..i]) + [pairs[i]];
        Printed(typ, common + pairs[..i], pairs[i]);
        output := output + JoinKv(pairs[i]);
      }
      assert pairs[..|pairs|] == pairs;
    }

    method ResolveKvArray(tokens: seq<string>) returns (items: Items)
      ensures items == ResolveItems(tokens)
    {
      hide ResolveKv, IEquals;
      items := Items(Common("", "", "", ""), []);
      for i := 0 to |tokens|
        invariant items == ResolveItems(tokens[..i])
      {
        assert tokens[..i+1][..i] == tokens[..i];
        var kv := ResolveKv(tokens[i]);
        if kv.Some? {
          var keyword, value := kv.value.keyword, kv.value.value;
          if IEquals(keyword, "utc") { items := items.(common := items.common.(utc := value)); }
          else if IEquals(keyword, "gid") { items := items.(common := items.common.(gid := value)); }
          else if IEquals(keyword, "uid") { items := items.(common := items.common.(uid := value)); }
          else if IEquals(keyword, "cid") { items := items.(common := items.common.(cid := value)); }
          else { items := items.(kvs := items.kvs + [kv.value]); }
        }
      }
      assert tokens[..|tokens|] == tokens;
    }

    method ResolveFileInfo(kvs: seq<KeyVal>) returns (r: FieldsResult)
      ensures r == ResolveFields(KFileInfo, kvs)
    {
      var tmobs, subpath, filename, filesize := "", "", "", INT_MIN;
      for i := 0 to |kvs|
        invariant ResolveFields(KFileInfo, kvs[..i]) == Ok(FileInfo(tmobs, subpath, filename, filesize))
      {
        assert kvs[..i+1][..i] == kvs[..i];
        var keyword, value := kvs[i].keyword, kvs[i].value;
        if IEquals(keyword, "tmobs") { tmobs := value; }
        else if IEquals(keyword, "subpath") { subpath := value; }
        else if IEquals(keyword, "filename") { filename := value; }
        else if IEquals(keyword, "filesize") {
          match Stoi(value)
          case IntOk(n) => filesize := n;
          case InvalidArgument => ErrorStays(KFileInfo, kvs, i + 1); return Err(BadNumber);
          case OutOfRange => ErrorStays(KFileInfo, kvs, i + 1); return Err(NumberRange);
        }
      }
      assert kvs[..|kvs|] == kvs;
      r := Ok(FileInfo(tmobs, subpath, filename, filesize));
    }

    method ResolveFileStat(kvs: seq<KeyVal>) returns (r: FieldsResult)
      ensures r == ResolveFields(KFileStat, kvs)
    {
      var status := INT_MIN;
      for i := 0 to |kvs|
        invariant ResolveFields(KFileStat, kvs[..i]) == Ok(FileStat(status))
      {
        assert kvs[..i+1][..i] == kvs[..i];
        if IEquals(kvs[i].keyword, "status") {
          match Stoi(kvs[i].value)
          case IntOk(n) => status := n;
          case InvalidArgument => ErrorStays(KFileStat, kvs, i + 1); return Err(BadNumber);
          case OutOfRange => ErrorStays(KFileStat, kvs, i + 1); return Err(NumberRange);
        }
      }
      assert kvs[..|kvs|] == kvs;
      r := Ok(FileStat(status));
    }

    method ResolveTrack(kvs: seq<KeyVal>) returns (r: FieldsResult)
      ensures r == ResolveFields(KTrack, kvs)
    {
      var objid, line1, line2 := "", "", "";
      for i := 0 to |kvs|
        invariant ResolveFields(KTrack, kvs[..i]) == Ok(Track(objid, line1, line2))
      {
        assert kvs[..i+1][..i] == kvs[..i];
        var keyword, value := kvs[i].keyword, kvs[i].value;
        if IEquals(keyword, "objid") { objid := value; }
        else if IEquals(keyword, "line1") { line1 := value; }
        else if IEquals(keyword, "line2") { line2 := value; }
      }
      assert kvs[..|kvs|] == kvs;
      r := Ok(Track(objid, line1, line2));
    }

    method SplitLine(rcvd: string) returns (typ: string, tokens: seq<string>)
      ensures typ == rcvd[..Find(rcvd, ' ')] && tokens == Tokens(rcvd)
    {
      hide Split, Find, TrimLeft, Lacks;
      NoWord(rcvd);
      typ := "";
      var p := 0;
      while p < |rcvd| && rcvd[p] != ' '
        invariant p <= |rcvd| && typ == rcvd[..p] && Lacks(typ, ' ')
      {
        WordGrows(rcvd, p);
        typ := typ + [rcvd[p]];
        p := p + 1;
      }
      FindUnique(rcvd, ' ', p);
      while p < |rcvd| && rcvd[p] == ' '
        invariant |typ| <= p <= |rcvd|
        invariant forall k :: |typ| <= k < p ==> rcvd[k] == ' '
      {
        p := p + 1;
      }
      BlanksTrimmed(rcvd, |typ|, p);
      tokens := if p < |rcvd| then Split(rcvd[p..], ',') else [];
    }

    /** The loops of the other kinds, as far as they throw. `stod` is how std::stod reads text. */
    method CheckNumbers(k: Kind, kvs: seq<KeyVal>, stod: Stod) returns (error: Option<Error>)
      ensures error == FirstError(k, kvs, stod)
    {
      hide Check;
      error := None;
      for i := 0 to |kvs|
        invariant error == FirstError(k, kvs[..i], stod) == None
      {
        assert kvs[..i+1][..i] == kvs[..i];
        error := Check(k, kvs[i], stod);
        if error.Some? {
          FirstErrorStays(k, kvs, i + 1, stod);
          return;
        }
      }
      assert kvs[..|kvs|] == kvs;
    }

    method Resolve(rcvd: string, stod: Stod) returns (outcome: Outcome)
      ensures outcome == WithErrors(AsciiProtocol.Resolve(rcvd), stod)
    {
      hide FirstError, ResolveItems, Tokens, Dispatch, DefaultFields, Assign;
      var typ, tokens := SplitLine(rcvd);
      var items := ResolveKvArray(tokens);
      var k := Dispatch(typ);
      if k.None? { return Null; }
      var r;
      match k.value {
        case KFileInfo => r := ResolveFileInfo(items.kvs);
        case KFileStat => r := ResolveFileStat(items.kvs);
        case KTrack => r := ResolveTrack(items.kvs);
        case _ =>
          DeferredKeeps(k.value, items.kvs);
          var error := CheckNumbers(k.value, items.kvs, stod);
          r := if error.Some? then Err(error.value) else Ok(Deferred(items.kvs));
      }
      FieldsKind(k.value, items.kvs);
      match r {
        case Err(e) => outcome := Throws(e);
        case Ok(f) =>
          outcome := Resolved(Message(k.value, typ, items.common.utc, items.common.gid,
                                      items.common.uid, items.common.cid, f));
      }
    }
  }

  lemma {:induction false} FieldsKind(k: Kind, kvs: seq<KeyVal>)
    ensures var r := ResolveFields(k, kvs);
            r.Ok? ==> (r.fields.Deferred? <==> k !in {KFileInfo, KFileStat, KTrack})
  {
    hide IEquals, Stoi;
    if kvs != [] { FieldsKind(k, kvs[..|kvs|-1]); }
  }

  lemma {:induction false} FirstErrorStays(k: Kind, kvs: seq<KeyVal>, n: nat, stod: Stod)
    requires n <= |kvs| && FirstError(k, kvs[..n], stod).Some?
    ensures FirstError(k, kvs, stod) == FirstError(k, kvs[..n], stod)
    decreases |kvs| - n
  {
    hide Check;
    if n == |kvs| {
      assert kvs[..n] == kvs;
    } else {
      assert kvs[..n+1][..n] == kvs[..n];
      FirstErrorStays(k, kvs, n + 1, stod);
    }
  }

  lemma NoWord(s: string)
    ensures s[..0] == "" && Lacks("", ' ')
  {
  }

  lemma WordGrows(s: string, p: nat)
    requires p < |s| && s[p] != ' ' && Lacks(s[..p], ' ')
    ensures s[..p + 1] == s[..p] + [s[p]] && Lacks(s[..p + 1], ' ')
  {
  }

  lemma {:induction false} BlanksTrimmed(s: string, i: nat, j: nat)
    requires i <= j <= |s| && (j < |s| ==> s[j] != ' ')
    requires forall k :: i <= k < j ==> s[k] == ' '
    ensures TrimLeft(s[i..], IsBlank) == s[j..]
    decreases |s| - i
  {
    hide TrimLeft;
    OneBlank(s[i..]);
    if i < j {
      BlanksTrimmed(s, i + 1, j);
      assert s[i..][1..] == s[i + 1..];
    }
  }

  lemma OneBlank(s: string)
    ensures TrimLeft(s, IsBlank) == if s != "" && s[0] == ' ' then TrimLeft(s[1..], IsBlank) else s
  {
  }

  /** What one more join_kv makes of the text. */
  lemma Printed(typ: string, kvs: seq<KeyVal>, kv: KeyVal)
    ensures typ + " " + JoinKvs(kvs) + JoinKv(kv) == typ + " " + JoinKvs(kvs + [kv])
    ensures kvs == [] ==> typ + " " + JoinKv(kv) == typ + " " + JoinKvs([kv])
  {
    assert (kvs + [kv])[..|kvs|] == kvs;
    var a, b, c := typ + " ", JoinKvs(kvs), JoinKv(kv);
    assert JoinKvs(kvs + [kv]) == b + c;
    assert kvs == [] ==> b == "" && kvs + [kv] == [kv];
    hide *;
    assert a + b + c == a + (b + c);
  }

  /** The first number that throws decides the outcome. */
  lemma {:induction false} ErrorStays(k: Kind, kvs: seq<KeyVal>, n: nat)
    requires n <= |kvs| && ResolveFields(k, kvs[..n]).Err?
    ensures ResolveFields(k, kvs) == ResolveFields(k, kvs[..n])
    decreases |kvs| - n
  {
    hide Assign;
    if n == |kvs| {
      assert kvs[..n] == kvs;
    } else {
      assert kvs[..n+1][..n] == kvs[..n];
      ErrorStays(k, kvs, n + 1);
    }
  }
}
