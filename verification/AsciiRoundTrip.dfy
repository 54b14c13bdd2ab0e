/** Printing and resolving are inverse to each other, and exactly when. */
module AsciiRoundTrip {
  import opened Text
  import opened AsciiProtocol

  /* ---------- one pair ---------- */

  predicate GoodKeyword(k: string) {
    Clean(k) && k != "" && SafeAtEnd(k)
  }

  predicate GoodPairs(kvs: seq<KeyVal>) {
    forall i :: 0 <= i < |kvs| ==> GoodKeyword(kvs[i].keyword) && Clean(kvs[i].value)
  }

  function PairText(kv: KeyVal): string {
    kv.keyword + "=" + kv.value
  }

  lemma PairResolves(kv: KeyVal)
    requires GoodKeyword(kv.keyword) && Clean(kv.value)
    ensures ResolveKv(PairText(kv)) == if kv.value == "" then None else Some(kv)
  {
    var k, v := kv.keyword, kv.value;
    SplitOne(v, '=');
    SplitFirst(k, v, '=');
    assert PairText(kv) == k + ['='] + v;
    TrimIsTrimmed(k);
    TrimIsTrimmed(v);
  }

  lemma BareKeywordDrops(k: string)
    requires GoodKeyword(k)
    ensures ResolveKv(k) == None
  {
    SplitOne(k, '=');
  }

  /* ---------- the line as a joined token list ---------- */

  function PairTexts(kvs: seq<KeyVal>): (r: seq<string>)
    ensures |r| == |kvs|
    ensures forall i :: 0 <= i < |kvs| ==> r[i] == PairText(kvs[i])
  {
    seq(|kvs|, i requires 0 <= i < |kvs| => PairText(kvs[i]))
  }

  /** What the right-trim leaves of the last pair. */
  function LastToken(kv: KeyVal): string {
    if kv.value == "" then kv.keyword else PairText(kv)
  }

  function LineTokens(kvs: seq<KeyVal>): seq<string>
    requires kvs != []
  {
    PairTexts(kvs[..|kvs|-1]) + [LastToken(kvs[|kvs|-1])]
  }

  lemma {:induction false} JoinKvsIsJoin(kvs: seq<KeyVal>)
    requires kvs != []
    ensures JoinKvs(kvs) == Join(PairTexts(kvs), ',') + ","
  {
    var init, last := kvs[..|kvs|-1], kvs[|kvs|-1];
    assert PairTexts(kvs) == PairTexts(init) + [PairText(last)];
    if init != [] {
      JoinKvsIsJoin(init);
      JoinAppend(PairTexts(init), PairText(last), ',');
    }
  }

  /** What the right-trim removes after the last token. */
  function Tail(kv: KeyVal): string {
    if kv.value == "" then "=," else ","
  }

  lemma Regroup(a: string, b: string, c: string, d: string)
    ensures (a + b) + (c + d) == ((a + b) + c) + d
  {
  }

  lemma JoinKvsEnd(kvs: seq<KeyVal>)
    requires kvs != []
    ensures JoinKvs(kvs) == Join(LineTokens(kvs), ',') + Tail(kvs[|kvs|-1])
  {
    hide JoinKvs, LineTokens, Tail, Join;
    if |kvs| == 1 {
      JoinOneEnd(kvs[0]);
      assert kvs == [kvs[0]];
    } else {
      JoinManyEnd(kvs[..|kvs|-1], kvs[|kvs|-1]);
      assert kvs == kvs[..|kvs|-1] + [kvs[|kvs|-1]];
    }
  }

  lemma JoinOneEnd(kv: KeyVal)
    ensures JoinKvs([kv]) == Join(LineTokens([kv]), ',') + Tail(kv)
  {
    assert [kv][..0] == [];
    assert PairTexts([]) + [LastToken(kv)] == [LastToken(kv)];
    assert JoinKv(kv) == LastToken(kv) + Tail(kv);
  }

  lemma JoinManyEnd(init: seq<KeyVal>, last: KeyVal)
    requires init != []
    ensures JoinKvs(init + [last]) == Join(LineTokens(init + [last]), ',') + Tail(last)
  {
    var kvs := init + [last];
    assert kvs[..|init|] == init;
    var joined, token, tail := Join(PairTexts(init), ','), LastToken(last), Tail(last);
    assert JoinKv(last) == token + tail;
    assert JoinKvs(init) == joined + "," by { JoinKvsIsJoin(init); }
    assert Join(LineTokens(kvs), ',') == joined + "," + token by { JoinAppend(PairTexts(init), token, ','); }
    assert JoinKvs(kvs) == JoinKvs(init) + (token + tail);
    hide *;
    Regroup(joined, ",", token, tail);
  }

  lemma JoinEndsWithLast(tokens: seq<string>, last: string)
    requires last != ""
    ensures var s := Join(tokens + [last], ','); s != "" && s[|s|-1] == last[|last|-1]
  {
    if tokens != [] { JoinAppend(tokens, last, ','); } else { assert tokens + [last] == [last]; }
  }

  lemma BodyIsJoin(typ: string, kvs: seq<KeyVal>)
    requires kvs != [] && GoodPairs(kvs) && SafeAtEnd(kvs[|kvs|-1].value)
    ensures Body(typ, kvs) == typ + " " + Join(LineTokens(kvs), ',')
  {
    JoinKvsEnd(kvs);
    var last := kvs[|kvs|-1];
    var text := typ + " " + Join(LineTokens(kvs), ',');
    var s := typ + " " + JoinKvs(kvs);
    JoinEndsWithLast(PairTexts(kvs[..|kvs|-1]), LastToken(last));
    assert s[..|text|] == text;
    TrimRightUnique(s, IsPunctOrSpace, |text|);
  }

  lemma LineTokensGood(kvs: seq<KeyVal>)
    requires kvs != [] && GoodPairs(kvs)
    ensures |LineTokens(kvs)| == |kvs|
    ensures forall i :: 0 <= i < |kvs| ==> Lacks(LineTokens(kvs)[i], ',') && LineTokens(kvs)[i] != ""
  {
  }

  lemma BlankTrimmed(rest: string)
    requires rest != "" && rest[0] != ' '
    ensures TrimLeft(" " + rest, IsBlank) == rest
  {
    var s := " " + rest;
    assert s[1..] == rest;
    assert TrimLeft(rest, IsBlank) == rest;
  }

  lemma TypeAndRest(typ: string, rest: string)
    requires Lacks(typ, ' ') && rest != "" && rest[0] != ' '
    ensures var s := typ + " " + rest; Find(s, ' ') == |typ| && TrimLeft(s[|typ|..], IsBlank) == rest
  {
    hide TrimLeft, Find;
    var s := typ + " " + rest;
    assert s[..|typ|] == typ && s[|typ|] == ' ';
    FindUnique(s, ' ', |typ|);
    BlankTrimmed(rest);
    assert s[|typ|..] == " " + rest;
  }

  /** The tokens `Resolve` sees are the printed pairs. */
  lemma BodyTokens(typ: string, kvs: seq<KeyVal>)
    requires Lacks(typ, ' ')
    requires kvs != [] && GoodPairs(kvs) && SafeAtEnd(kvs[|kvs|-1].value)
    ensures var s := Body(typ, kvs); s[..Find(s, ' ')] == typ && Tokens(s) == LineTokens(kvs)
  {
    hide Body, Lacks, GoodPairs, SafeAtEnd, LineTokens, Join, Split, Find, TrimLeft;
    var tokens := LineTokens(kvs);
    BodyIsJoin(typ, kvs);
    LineTokensGood(kvs);
    SplitJoin(tokens, ',');
    FirstOfJoin(kvs);
    TypeAndRest(typ, Join(tokens, ','));
    assert (typ + " " + Join(tokens, ','))[..|typ|] == typ;
  }

  lemma FirstOfJoin(kvs: seq<KeyVal>)
    requires kvs != [] && GoodPairs(kvs)
    ensures var s := Join(LineTokens(kvs), ','); s != "" && !IsSpace(s[0])
  {
    var t := LineTokens(kvs)[0];
    assert t[0] == kvs[0].keyword[0];
    assert Join(LineTokens(kvs), ',')[0] == t[0];
  }

  /* ---------- the pairs that arrive ---------- */

  function Arrive(p: Items, kv: KeyVal): Items {
    if kv.value == "" then p else AddItem(p, kv)
  }

  function Arrived(kvs: seq<KeyVal>): Items {
    if kvs == [] then Items(Common("", "", "", ""), [])
    else Arrive(Arrived(kvs[..|kvs|-1]), kvs[|kvs|-1])
  }

  lemma ArrivedAppend(kvs: seq<KeyVal>, kv: KeyVal)
    ensures Arrived(kvs + [kv]) == Arrive(Arrived(kvs), kv)
    ensures Arrived(kvs + Optional(kv.keyword, kv.value)) == Arrive(Arrived(kvs), kv)
  {
    assert (kvs + [kv])[..|kvs|] == kvs;
    assert kvs + [] == kvs;
  }

  lemma {:induction false} TextsArrive(kvs: seq<KeyVal>)
    requires GoodPairs(kvs)
    ensures ResolveItems(PairTexts(kvs)) == Arrived(kvs)
  {
    if kvs != [] {
      var init, last := kvs[..|kvs|-1], kvs[|kvs|-1];
      TextsArrive(init);
      assert PairTexts(kvs)[..|kvs|-1] == PairTexts(init);
      PairResolves(last);
    }
  }

  lemma BodyArrives(typ: string, kvs: seq<KeyVal>)
    requires Lacks(typ, ' ')
    requires kvs != [] && GoodPairs(kvs) && SafeAtEnd(kvs[|kvs|-1].value)
    ensures var s := Body(typ, kvs); s[..Find(s, ' ')] == typ && ResolveItems(Tokens(s)) == Arrived(kvs)
  {
    BodyTokens(typ, kvs);
    var init, last := kvs[..|kvs|-1], kvs[|kvs|-1];
    TextsArrive(init);
    assert LineTokens(kvs)[..|kvs|-1] == PairTexts(init);
    PairResolves(last);
    BareKeywordDrops(last.keyword);
  }

  /* ---------- whole messages ---------- */

  lemma CommonKeywords(p: Items, v: string)
    ensures AddItem(p, KeyVal("utc", v)) == p.(common := p.common.(utc := v))
    ensures AddItem(p, KeyVal("gid", v)) == p.(common := p.common.(gid := v))
    ensures AddItem(p, KeyVal("uid", v)) == p.(common := p.common.(uid := v))
    ensures AddItem(p, KeyVal("cid", v)) == p.(common := p.common.(cid := v))
  {
    assert ToUpper("gid"[0]) != ToUpper("utc"[0]) && ToUpper("cid"[0]) != ToUpper("utc"[0]);
    assert ToUpper("uid"[1]) != ToUpper("utc"[1]);
    assert ToUpper("uid"[0]) != ToUpper("gid"[0]) && ToUpper("cid"[0]) != ToUpper("gid"[0]);
    assert ToUpper("cid"[0]) != ToUpper("uid"[0]);
  }

  lemma BaseArrives(m: Message)
    requires m.utc != ""
    ensures Arrived(BasePairs(m)) == Items(Common(m.utc, m.gid, m.uid, m.cid), [])
  {
    var p0 := [KeyVal("utc", m.utc)];
    var p1 := p0 + Optional("gid", m.gid);
    var p2 := p1 + Optional("uid", m.uid);
    var none := Common("", "", "", "");
    CommonKeywords(Items(none, []), m.utc);
    CommonKeywords(Items(none.(utc := m.utc), []), m.gid);
    CommonKeywords(Items(none.(utc := m.utc, gid := m.gid), []), m.uid);
    CommonKeywords(Items(none.(utc := m.utc, gid := m.gid, uid := m.uid), []), m.cid);
    assert Arrived([]) == Items(Common("", "", "", ""), []);
    ArrivedAppend([], p0[0]);
    assert [] + p0 == p0;
    ArrivedAppend(p0, KeyVal("gid", m.gid));
    ArrivedAppend(p1, KeyVal("uid", m.uid));
    ArrivedAppend(p2, KeyVal("cid", m.cid));
  }

  /** Each field pair is kept for the message-specific pass, unless its value is empty. */
  lemma {:induction false} FieldsArrive(base: seq<KeyVal>, kvs: seq<KeyVal>)
    requires forall i :: 0 <= i < |kvs| ==> |kvs[i].keyword| > 3
    ensures Arrived(base + kvs) == Arrived(base).(kvs := Arrived(base).kvs + NonEmpty(kvs))
  {
    hide Arrived;
    if kvs == [] {
      assert base + kvs == base;
    } else {
      var init, last := kvs[..|kvs|-1], kvs[|kvs|-1];
      FieldsArrive(base, init);
      assert base + kvs == (base + init) + [last];
      ArrivedAppend(base + init, last);
      assert Arrived(base).kvs + NonEmpty(init) + [last] == Arrived(base).kvs + (NonEmpty(init) + [last]);
    }
  }

  function NonEmpty(kvs: seq<KeyVal>): seq<KeyVal> {
    if kvs == [] then []
    else
      var init, last := NonEmpty(kvs[..|kvs|-1]), kvs[|kvs|-1];
      if last.value == "" then init else init + [last]
  }

  lemma ResolveFieldsAppend(k: Kind, kvs: seq<KeyVal>, kv: KeyVal)
    ensures ResolveFields(k, kvs + [kv]) ==
            match ResolveFields(k, kvs) case Err(e) => Err(e) case Ok(f) => Assign(f, kv)
  {
    assert (kvs + [kv])[..|kvs|] == kvs;
  }

  lemma NonEmptyAppend(kvs: seq<KeyVal>, kv: KeyVal)
    ensures NonEmpty(kvs + [kv]) == NonEmpty(kvs) + (if kv.value == "" then [] else [kv])
  {
    assert (kvs + [kv])[..|kvs|] == kvs;
  }

  lemma NoFields(k: Kind)
    ensures ResolveFields(k, NonEmpty([])) == Ok(DefaultFields(k))
  {
  }

  /** One more printed field: an empty value arrives as the default it came from. */
  lemma OneMoreField(k: Kind, kvs: seq<KeyVal>, kv: KeyVal, before: Fields)
    requires ResolveFields(k, NonEmpty(kvs)) == Ok(before)
    ensures ResolveFields(k, NonEmpty(kvs + [kv])) == if kv.value == "" then Ok(before) else Assign(before, kv)
  {
    hide NonEmpty, ResolveFields, Assign;
    NonEmptyAppend(kvs, kv);
    ResolveFieldsAppend(k, NonEmpty(kvs), kv);
    assert NonEmpty(kvs) + [] == NonEmpty(kvs);
  }

  lemma FieldKeywordsLong(f: Fields)
    ensures forall i :: 0 <= i < |FieldPairs(f)| ==> |FieldPairs(f)[i].keyword| > 3
  {
  }

  lemma FileInfoKeywords(f: Fields, v: string, n: int)
    requires f.FileInfo? && INT_MIN <= n <= INT_MAX
    ensures Assign(f, KeyVal("tmobs", v)) == Ok(f.(tmobs := v))
    ensures Assign(f, KeyVal("subpath", v)) == Ok(f.(subpath := v))
    ensures Assign(f, KeyVal("filename", v)) == Ok(f.(filename := v))
    ensures Assign(f, KeyVal("filesize", IntText(n))) == Ok(f.(filesize := n))
  {
    StoiIntText(n);
    assert ToUpper("filename"[4]) != ToUpper("filesize"[4]);
  }

  lemma FileInfoRecovered(f: Fields)
    requires f.FileInfo? && INT_MIN <= f.filesize <= INT_MAX
    ensures ResolveFields(KFileInfo, NonEmpty(FieldPairs(f))) == Ok(f)
  {
    hide ResolveFields, NonEmpty, Assign, IntText;
    var kvs := FieldPairs(f);
    var f0 := FileInfo("", "", "", INT_MIN);
    NoFields(KFileInfo);
    IntTextClean(f.filesize);
    var f1, f2, f3 := f0.(tmobs := f.tmobs), f0.(tmobs := f.tmobs, subpath := f.subpath), f.(filesize := INT_MIN);
    assert kvs[..0] + [kvs[0]] == kvs[..1] && kvs[..1] + [kvs[1]] == kvs[..2];
    assert kvs[..2] + [kvs[2]] == kvs[..3] && kvs[..3] + [kvs[3]] == kvs;
    FileInfoKeywords(f0, f.tmobs, 0);
    OneMoreField(KFileInfo, kvs[..0], kvs[0], f0);
    FileInfoKeywords(f1, f.subpath, 0);
    OneMoreField(KFileInfo, kvs[..1], kvs[1], f1);
    FileInfoKeywords(f2, f.filename, 0);
    OneMoreField(KFileInfo, kvs[..2], kvs[2], f2);
    FileInfoKeywords(f3, "", f.filesize);
    OneMoreField(KFileInfo, kvs[..3], kvs[3], f3);
  }

  lemma FileStatRecovered(f: Fields)
    requires f.FileStat? && INT_MIN <= f.status <= INT_MAX
    ensures ResolveFields(KFileStat, NonEmpty(FieldPairs(f))) == Ok(f)
  {
    var kv := KeyVal("status", IntText(f.status));
    FileStatKeyword(FileStat(INT_MIN), f.status);
    var none: seq<KeyVal> := [];
    assert ResolveFields(KFileStat, NonEmpty(none)) == Ok(FileStat(INT_MIN));
    OneMoreField(KFileStat, none, kv, FileStat(INT_MIN));
    assert none + [kv] == FieldPairs(f);
  }

  lemma FileStatKeyword(f: Fields, n: int)
    requires f.FileStat? && INT_MIN <= n <= INT_MAX
    ensures Assign(f, KeyVal("status", IntText(n))) == Ok(f.(status := n))
    ensures IntText(n) != ""
  {
    StoiIntText(n);
  }

  lemma TrackKeywords(f: Fields, v: string)
    requires f.Track?
    ensures Assign(f, KeyVal("objid", v)) == Ok(f.(objid := v))
    ensures Assign(f, KeyVal("line1", v)) == Ok(f.(line1 := v))
    ensures Assign(f, KeyVal("line2", v)) == Ok(f.(line2 := v))
  {
    assert ToUpper("line1"[0]) != ToUpper("objid"[0]) && ToUpper("line2"[0]) != ToUpper("objid"[0]);
    assert ToUpper("line2"[4]) != ToUpper("line1"[4]);
  }

  lemma TrackRecovered(f: Fields)
    requires f.Track?
    ensures ResolveFields(KTrack, NonEmpty(FieldPairs(f))) == Ok(f)
  {
    var kvs := FieldPairs(f);
    var f0, f1, f2 := Track("", "", ""), Track(f.objid, "", ""), Track(f.objid, f.line1, "");
    assert kvs[..0] + [kvs[0]] == kvs[..1] && kvs[..1] + [kvs[1]] == kvs[..2];
    assert kvs[..2] + [kvs[2]] == kvs;
    TrackKeywords(f0, f.objid);
    OneMoreField(KTrack, kvs[..0], kvs[0], f0);
    TrackKeywords(f1, f.line1);
    OneMoreField(KTrack, kvs[..1], kvs[1], f1);
    TrackKeywords(f2, f.line2);
    OneMoreField(KTrack, kvs[..2], kvs[2], f2);
  }

  lemma FieldsRecovered(m: Message)
    requires FieldsFit(m.kind, m.fields)
    ensures ResolveFields(m.kind, NonEmpty(FieldPairs(m.fields))) == Ok(m.fields)
  {
    match m.fields
    case FileInfo(_, _, _, _) => FileInfoRecovered(m.fields);
    case FileStat(_) => FileStatRecovered(m.fields);
    case Track(_, _, _) => TrackRecovered(m.fields);
  }

  lemma TypeWord(m: Message)
    requires WellTyped(m)
    ensures m.typ != "" && Lacks(m.typ, ' ') && Lacks(m.typ, NUL) && Lacks(m.typ, '\n')
  {
    var name := NameOf(m.kind);
    assert IEquals(m.typ, name);
    assert forall i :: 0 <= i < |name| ==> 'A' <= ToUpper(name[i]) <= 'Z';
  }

  lemma IntTextClean(n: int)
    ensures Clean(IntText(n)) && SafeAtEnd(IntText(n)) && IntText(n) != "" && Lacks(IntText(n), '\n')
  {
  }

  function AllPairs(m: Message, now: string): seq<KeyVal> {
    BasePairs(m.(utc := now)) + FieldPairs(m.fields)
  }

  lemma KeywordsGood()
    ensures GoodKeyword("utc") && GoodKeyword("gid") && GoodKeyword("uid") && GoodKeyword("cid")
    ensures GoodKeyword("tmobs") && GoodKeyword("subpath") && GoodKeyword("filename") && GoodKeyword("filesize")
    ensures GoodKeyword("status") && GoodKeyword("objid") && GoodKeyword("line1") && GoodKeyword("line2")
  {
  }

  lemma FieldPairsGood(f: Fields)
    requires CleanFields(f) && !f.Deferred? && (f.Track? ==> SafeAtEnd(f.line2))
    ensures FieldPairs(f) != [] && GoodPairs(FieldPairs(f))
    ensures SafeAtEnd(FieldPairs(f)[|FieldPairs(f)|-1].value)
  {
    KeywordsGood();
    hide Clean, SafeAtEnd;
    if f.FileInfo? { IntTextClean(f.filesize); }
    if f.FileStat? { IntTextClean(f.status); }
  }

  lemma BasePairsGood(m: Message)
    requires Clean(m.utc) && Clean(m.gid) && Clean(m.uid) && Clean(m.cid)
    ensures GoodPairs(BasePairs(m))
  {
    KeywordsGood();
    hide Clean, SafeAtEnd;
  }

  lemma PairsGood(m: Message, now: string)
    requires WellTyped(m) && TimeTag(now) && Printable(m)
    ensures GoodPairs(AllPairs(m, now))
    ensures var kvs := AllPairs(m, now); kvs != [] && SafeAtEnd(kvs[|kvs|-1].value)
  {
    hide Clean, SafeAtEnd, GoodKeyword, FieldPairs, BasePairs, Dispatch;
    BasePairsGood(m.(utc := now));
    FieldPairsGood(m.fields);
  }

  lemma {:induction false} JoinKvsLacks(kvs: seq<KeyVal>, c: char)
    requires c != '=' && c != ','
    requires forall i :: 0 <= i < |kvs| ==> Lacks(kvs[i].keyword, c) && Lacks(kvs[i].value, c)
    ensures Lacks(JoinKvs(kvs), c)
  {
    if kvs != [] { JoinKvsLacks(kvs[..|kvs|-1], c); }
  }

  lemma CompactIsBody(m: Message, now: string)
    requires WellTyped(m) && TimeTag(now) && Printable(m)
    ensures Chop(Compact(m, now)) == Body(m.typ, AllPairs(m, now))
  {
    PairsGood(m, now);
    TypeWord(m);
    JoinKvsLacks(AllPairs(m, now), NUL);
    assert Lacks(m.typ + " " + JoinKvs(AllPairs(m, now)), NUL);
  }

  /** Every printable fileinfo, filestat and track comes back with every field: empty strings,
      omitted ids and every 32-bit integer included. */
  lemma PrintThenResolve(m: Message, now: string)
    requires WellTyped(m) && TimeTag(now) && Printable(m)
    ensures Resolve(Chop(Compact(m, now))) == Resolved(m.(utc := now))
  {
    hide Clean, SafeAtEnd, GoodPairs, FieldPairs, BasePairs, Dispatch, NonEmpty, Arrived, Body, Compact, Tokens,
      ResolveItems, Lacks, Printable;
    var kvs := AllPairs(m, now);
    TypeWord(m);
    PairsGood(m, now);
    CompactIsBody(m, now);
    BodyArrives(m.typ, kvs);
    BaseArrives(m.(utc := now));
    FieldKeywordsLong(m.fields);
    FieldsArrive(BasePairs(m.(utc := now)), FieldPairs(m.fields));
    assert [] + NonEmpty(FieldPairs(m.fields)) == NonEmpty(FieldPairs(m.fields));
    FieldsRecovered(m);
  }

  /* ---------- what resolving can produce ---------- */

  lemma ResolvedPairIsClean(token: string)
    requires Lacks(token, ',') && Lacks(token, NUL)
    ensures ResolveKv(token).Some? ==> Clean(ResolveKv(token).value.value)
  {
    SplitKeepsLack(token, '=', ',');
    SplitKeepsLack(token, '=', NUL);
    SplitLacks(token, '=');
    var tokens := Split(token, '=');
    if |tokens| > 1 {
      TrimKeepsLack(tokens[1], ',');
      TrimKeepsLack(tokens[1], NUL);
      TrimKeepsLack(tokens[1], '=');
      TrimIsTrimmed(tokens[1]);
    }
  }

  predicate CleanItems(p: Items) {
    Clean(p.common.utc) && Clean(p.common.gid) && Clean(p.common.uid) && Clean(p.common.cid)
    && forall i :: 0 <= i < |p.kvs| ==> Clean(p.kvs[i].value)
  }

  lemma AddItemClean(p: Items, kv: KeyVal)
    requires CleanItems(p) && Clean(kv.value)
    ensures CleanItems(AddItem(p, kv))
  {
    hide Clean, IEquals;
  }

  lemma {:induction false} ItemsAreClean(tokens: seq<string>)
    requires forall i :: 0 <= i < |tokens| ==> Lacks(tokens[i], ',') && Lacks(tokens[i], NUL)
    ensures CleanItems(ResolveItems(tokens))
  {
    if tokens != [] {
      var init, last := tokens[..|tokens|-1], tokens[|tokens|-1];
      ItemsAreClean(init);
      ResolvedPairIsClean(last);
      hide Clean, AddItem, ResolveKv, CleanItems, Lacks;
      if ResolveKv(last).Some? { AddItemClean(ResolveItems(init), ResolveKv(last).value); }
    } else {
      assert CleanItems(ResolveItems([]));
    }
  }

  predicate FieldsAllowed(k: Kind, f: Fields) {
    CleanFields(f) && if k in {KFileInfo, KFileStat, KTrack} then FieldsFit(k, f) else f.Deferred?
  }

  lemma AssignAllowed(k: Kind, f: Fields, kv: KeyVal)
    requires FieldsAllowed(k, f) && Clean(kv.value)
    ensures Assign(f, kv).Ok? ==> FieldsAllowed(k, Assign(f, kv).fields)
  {
    hide IEquals, Clean, Stoi;
  }

  lemma {:induction false} FieldsAreClean(k: Kind, kvs: seq<KeyVal>)
    requires forall i :: 0 <= i < |kvs| ==> Clean(kvs[i].value)
    ensures ResolveFields(k, kvs).Ok? ==> FieldsAllowed(k, ResolveFields(k, kvs).fields)
  {
    hide Clean, Assign, FieldsAllowed;
    if kvs == [] {
      DefaultsAllowed(k);
    } else {
      var init, last := kvs[..|kvs|-1], kvs[|kvs|-1];
      FieldsAreClean(k, init);
      if ResolveFields(k, init).Ok? { AssignAllowed(k, ResolveFields(k, init).fields, last); }
    }
  }

  lemma DefaultsAllowed(k: Kind)
    ensures FieldsAllowed(k, DefaultFields(k))
  {
  }

  /** Whatever the spacing, commas, keys and values of a line, the strings taken from it are clean
      and the message is well typed. */
  lemma ResolvedIsClean(line: string)
    requires Lacks(line, NUL) && Resolve(line).Resolved?
    ensures CleanMessage(Resolve(line).m)
    ensures Resolve(line).m.kind in {KFileInfo, KFileStat, KTrack} ==> WellTyped(Resolve(line).m)
  {
    var tokens := Tokens(line);
    var rest := TrimLeft(line[Find(line, ' ')..], IsBlank);
    assert Lacks(rest, NUL);
    SplitKeepsLack(rest, ',', NUL);
    SplitLacks(rest, ',');
    ItemsAreClean(tokens);
    FieldsAreClean(Resolve(line).m.kind, ResolveItems(tokens).kvs);
  }

  /* ---------- exactly when the round trip holds ---------- */

  /** Trimming twice: what follows the cut value is cut in any case. */
  lemma TrimOverCut(head: string, v: string)
    ensures TrimRight(head + v + ",", IsPunctOrSpace)
         == TrimRight(head + TrimRight(v, IsPunctOrSpace) + ",", IsPunctOrSpace)
  {
    var w := TrimRight(v, IsPunctOrSpace);
    var s, t := head + v + ",", head + w + ",";
    var r := TrimRight(t, IsPunctOrSpace);
    assert |r| < |t| by { assert IsPunctOrSpace(t[|t|-1]); }
    var n := |head + w|;
    assert s[..n] == t[..n] by { assert v[..|w|] == w; }
    assert r == t[..|r|] == s[..|r|];
    assert r != [] ==> r[|r|-1] == s[|r|-1];
    assert forall i :: |r| <= i < n ==> s[i] == t[i];
    assert forall i :: n <= i < |head + v| ==> s[i] == v[i - |head|];
    TrimRightUnique(s, IsPunctOrSpace, |r|);
  }

  /** A last value that ends in punctuation prints the same line as its trimmed form. */
  lemma LastValueIsTrimmed(typ: string, init: seq<KeyVal>, k: string, v: string)
    ensures Body(typ, init + [KeyVal(k, v)]) == Body(typ, init + [KeyVal(k, TrimRight(v, IsPunctOrSpace))])
  {
    var w := TrimRight(v, IsPunctOrSpace);
    var head := typ + " " + JoinKvs(init) + k + "=";
    LineWithLast(typ, init, k, v);
    LineWithLast(typ, init, k, w);
    hide JoinKvs, TrimRight;
    TrimOverCut(head, v);
  }

  lemma LineWithLast(typ: string, init: seq<KeyVal>, k: string, v: string)
    ensures typ + " " + JoinKvs(init + [KeyVal(k, v)]) == typ + " " + JoinKvs(init) + k + "=" + v + ","
  {
    assert (init + [KeyVal(k, v)])[..|init|] == init;
    var a, b := typ + " ", JoinKvs(init);
    assert JoinKvs(init + [KeyVal(k, v)]) == b + (k + "=" + v + ",");
    hide *;
    assert a + (b + (k + "=" + v + ",")) == a + b + k + "=" + v + ",";
  }

  lemma TrackLineIsTrimmed(m: Message, now: string)
    requires m.fields.Track?
    ensures Compact(m, now) == Compact(TrimmedTrack(m), now)
  {
    var f := m.fields;
    var f' := f.(line2 := TrimRight(f.line2, IsPunctOrSpace));
    var init := BasePairs(m.(utc := now)) + FieldPairs(f)[..2];
    assert AllPairs(m, now) == init + [KeyVal("line2", f.line2)];
    assert AllPairs(m.(fields := f'), now) == init + [KeyVal("line2", f'.line2)];
    LastValueIsTrimmed(m.typ, init, "line2", f.line2);
  }

  /** The round trip holds for a message if and only if it is printable. */
  lemma RoundTripExactly(m: Message, now: string)
    requires WellTyped(m) && TimeTag(now)
    ensures Resolve(Chop(Compact(m, now))) == Resolved(m.(utc := now)) <==> Printable(m)
  {
    hide Resolve, Compact, WellTyped, TimeTag, CleanMessage, Printable;
    if Printable(m) {
      PrintThenResolve(m, now);
    } else if Resolve(Chop(Compact(m, now))) == Resolved(m.(utc := now)) {
      OnlyTheEnd(m, now);
      var m' := TrimmedTrack(m);
      TrackLineIsTrimmed(m, now);
      PrintThenResolve(m', now);
      assert false;
    }
  }

  function TrimmedTrack(m: Message): Message
    requires m.fields.Track?
  {
    m.(fields := m.fields.(line2 := TrimRight(m.fields.line2, IsPunctOrSpace)))
  }

  /** A message that comes back unprintable is a track whose last string ends in punctuation; cut, it
      prints. */
  lemma OnlyTheEnd(m: Message, now: string)
    requires WellTyped(m) && TimeTag(now) && !Printable(m)
    requires Resolve(Chop(Compact(m, now))) == Resolved(m.(utc := now))
    ensures m.fields.Track? && WellTyped(TrimmedTrack(m)) && Printable(TrimmedTrack(m))
    ensures TrimmedTrack(m) != m
  {
    hide Resolve, Clean, Dispatch;
    CompactLacksNul(m, now);
    ResolvedIsClean(Chop(Compact(m, now)));
    hide Compact;
    PrefixIsClean(m.fields.line2, TrimmedTrack(m).fields.line2);
  }

  lemma CompactLacksNul(m: Message, now: string)
    ensures Lacks(Chop(Compact(m, now)), NUL)
  {
    hide Body;
    var text := CString(Body(m.typ, BasePairs(m.(utc := now)) + FieldPairs(m.fields)));
    assert Chop(text + "\n") == text;
  }

  lemma PrefixIsClean(v: string, w: string)
    requires Clean(v) && w <= v && SafeAtEnd(w)
    ensures Clean(w)
  {
  }

  lemma CleanIsPrintable(m: Message)
    requires CleanMessage(m) && WellTyped(m) && m.kind != KTrack
    ensures Printable(m)
  {
    hide Clean, Dispatch;
  }

  /** Resolving, printing and resolving again changes nothing but the time tag, for every line
      accepted as fileinfo or filestat. */
  lemma ResolvePrintResolve(line: string, m: Message, now: string)
    requires Lacks(line, NUL) && TimeTag(now)
    requires Resolve(line) == Resolved(m) && m.kind in {KFileInfo, KFileStat}
    ensures Resolve(Chop(Compact(m, now))) == Resolved(m.(utc := now))
  {
    hide Resolve, Compact, WellTyped, Printable, CleanMessage, TimeTag;
    ResolvedIsClean(line);
    CleanIsPrintable(m);
    PrintThenResolve(m, now);
  }

  /** For a track line it holds exactly when `line2` does not end in punctuation. */
  lemma ResolvePrintResolveTrack(line: string, m: Message, now: string)
    requires Lacks(line, NUL) && TimeTag(now)
    requires Resolve(line) == Resolved(m) && m.kind == KTrack
    ensures m.fields.Track?
    ensures Resolve(Chop(Compact(m, now))) == Resolved(m.(utc := now)) <==> SafeAtEnd(m.fields.line2)
  {
    hide Resolve, Compact, Dispatch, TimeTag;
    ResolvedIsClean(line);
    RoundTripExactly(m, now);
  }
}
