/** The text of printed lines, letter by letter. */
module AsciiText {
  import opened Text
  import opened AsciiProtocol
  import opened TcpClient
  import AsciiRoundTrip

  /** The type word, the time tag, and the ids that are not empty. */
  function BaseText(m: Message): string {
    m.typ + " utc=" + m.utc + ","
    + (if m.gid == "" then "" else "gid=" + m.gid + ",")
    + (if m.uid == "" then "" else "uid=" + m.uid + ",")
    + (if m.cid == "" then "" else "cid=" + m.cid + ",")
  }

  lemma OneMore(typ: string, kvs: seq<KeyVal>, keyword: string, value: string)
    ensures typ + " " + JoinKvs(kvs + [KeyVal(keyword, value)]) ==
            typ + " " + JoinKvs(kvs) + keyword + "=" + value + ","
  {
    AsciiRoundTrip.LineWithLast(typ, kvs, keyword, value);
  }

  lemma OneMoreId(typ: string, kvs: seq<KeyVal>, keyword: string, value: string)
    ensures typ + " " + JoinKvs(kvs + Optional(keyword, value)) ==
            typ + " " + JoinKvs(kvs) + if value == "" then "" else keyword + "=" + value + ","
  {
    var a := typ + " " + JoinKvs(kvs);
    OneMore(typ, kvs, keyword, value);
    assert kvs + [] == kvs;
    hide JoinKvs;
    assert a + keyword + "=" + value + "," == a + (keyword + "=" + value + ",");
  }

  /** What compact_base prints. */
  lemma BaseIsText(m: Message)
    ensures m.typ + " " + JoinKvs(BasePairs(m)) == BaseText(m)
  {
    hide JoinKvs, Optional;
    var p1 := [KeyVal("utc", m.utc)];
    var p2 := p1 + Optional("gid", m.gid);
    var p3 := p2 + Optional("uid", m.uid);
    FirstPair(m.typ, m.utc);
    OneMoreId(m.typ, p1, "gid", m.gid);
    OneMoreId(m.typ, p2, "uid", m.uid);
    OneMoreId(m.typ, p3, "cid", m.cid);
  }

  lemma FirstPair(typ: string, utc: string)
    ensures typ + " " + JoinKvs([KeyVal("utc", utc)]) == typ + " utc=" + utc + ","
  {
    var kv := KeyVal("utc", utc);
    assert [kv][..0] == [];
    assert JoinKvs([kv]) == JoinKv(kv);
    hide JoinKvs;
    assert typ + " " + ("utc" + "=" + utc + ",") == typ + " utc=" + utc + ",";
  }

  predicate Printed(m: Message) {
    Lacks(m.typ, NUL) && Lacks(m.utc, NUL) && Lacks(m.gid, NUL) && Lacks(m.uid, NUL) && Lacks(m.cid, NUL)
  }

  lemma BaseLacks(m: Message)
    requires Printed(m)
    ensures Lacks(BaseText(m), NUL)
  {
  }

  /** The right-trim takes the comma behind a number and no more. */
  lemma CutAfterNumber(text: string, n: int)
    requires Lacks(text, NUL)
    ensures CString(TrimRight(text + IntText(n) + ",", IsPunctOrSpace)) == text + IntText(n)
  {
    AsciiRoundTrip.IntTextClean(n);
    var s, t := text + IntText(n) + ",", text + IntText(n);
    hide IntText, TrimRight, CString;
    assert s[..|t|] == t && t[|t|-1] == IntText(n)[|IntText(n)|-1];
    TrimRightUnique(s, IsPunctOrSpace, |t|);
    assert Lacks(t, NUL);
  }

  lemma FileStatText(m: Message, now: string)
    requires m.fields.FileStat? && Printed(m.(utc := now))
    ensures Compact(m, now) == BaseText(m.(utc := now)) + "status=" + IntText(m.fields.status) + "\n"
  {
    hide JoinKvs, IntText, BaseText, TrimRight, CString, Printed, BasePairs;
    var b := m.(utc := now);
    BaseIsText(b);
    BaseLacks(b);
    OneMore(m.typ, BasePairs(b), "status", IntText(m.fields.status));
    CutAfterNumber(BaseText(b) + "status=", m.fields.status);
    assert BaseText(b) + "status" + "=" == BaseText(b) + "status=";
  }

  lemma FileInfoText(m: Message, now: string)
    requires m.fields.FileInfo? && Printed(m.(utc := now))
    requires Lacks(m.fields.tmobs, NUL) && Lacks(m.fields.subpath, NUL) && Lacks(m.fields.filename, NUL)
    ensures Compact(m, now) ==
            BaseText(m.(utc := now)) + "tmobs=" + m.fields.tmobs + ",subpath=" + m.fields.subpath
            + ",filename=" + m.fields.filename + ",filesize=" + IntText(m.fields.filesize) + "\n"
  {
    hide JoinKvs, IntText, BaseText, TrimRight, CString, Printed, BasePairs;
    var b, f := m.(utc := now), m.fields;
    BaseIsText(b);
    BaseLacks(b);
    var p0 := BasePairs(b);
    var p1 := p0 + [KeyVal("tmobs", f.tmobs)];
    var p2 := p1 + [KeyVal("subpath", f.subpath)];
    var p3 := p2 + [KeyVal("filename", f.filename)];
    OneMore(m.typ, p0, "tmobs", f.tmobs);
    OneMore(m.typ, p1, "subpath", f.subpath);
    OneMore(m.typ, p2, "filename", f.filename);
    OneMore(m.typ, p3, "filesize", IntText(f.filesize));
    assert p0 + FieldPairs(f) == p3 + [KeyVal("filesize", IntText(f.filesize))];
    var text := BaseText(b) + "tmobs=" + f.tmobs + ",subpath=" + f.subpath + ",filename=" + f.filename + ",filesize=";
    FileInfoRegroups(BaseText(b), f.tmobs, f.subpath, f.filename);
    assert Lacks(text, NUL);
    CutAfterNumber(text, f.filesize);
  }

  lemma FileInfoRegroups(base: string, tmobs: string, subpath: string, filename: string)
    ensures base + "tmobs" + "=" + tmobs + "," + "subpath" + "=" + subpath + "," + "filename" + "=" + filename + ","
            + "filesize" + "=" ==
            base + "tmobs=" + tmobs + ",subpath=" + subpath + ",filename=" + filename + ",filesize="
  {
  }

  lemma TrackText(m: Message, now: string)
    requires m.fields.Track? && Printed(m.(utc := now))
    requires Lacks(m.fields.objid, NUL) && Lacks(m.fields.line1, NUL) && Lacks(m.fields.line2, NUL)
    ensures Compact(m, now) ==
            TrimRight(BaseText(m.(utc := now)) + "objid=" + m.fields.objid + ",line1=" + m.fields.line1
                      + ",line2=" + m.fields.line2 + ",", IsPunctOrSpace) + "\n"
  {
    hide JoinKvs, BaseText, TrimRight, CString, Printed, BasePairs;
    var b, f := m.(utc := now), m.fields;
    BaseIsText(b);
    BaseLacks(b);
    var p0 := BasePairs(b);
    var p1 := p0 + [KeyVal("objid", f.objid)];
    var p2 := p1 + [KeyVal("line1", f.line1)];
    OneMore(m.typ, p0, "objid", f.objid);
    OneMore(m.typ, p1, "line1", f.line1);
    OneMore(m.typ, p2, "line2", f.line2);
    assert p0 + FieldPairs(f) == p2 + [KeyVal("line2", f.line2)];
    var text := BaseText(b) + "objid=" + f.objid + ",line1=" + f.line1 + ",line2=" + f.line2 + ",";
    TrackRegroups(BaseText(b), f.objid, f.line1, f.line2);
    assert Lacks(text, NUL);
    var cut := TrimRight(text, IsPunctOrSpace);
    assert cut <= text && Lacks(cut, NUL);
  }

  lemma TrackRegroups(base: string, objid: string, line1: string, line2: string)
    ensures base + "objid" + "=" + objid + "," + "line1" + "=" + line1 + "," + "line2" + "=" + line2 + "," ==
            base + "objid=" + objid + ",line1=" + line1 + ",line2=" + line2 + ","
  {
  }

  /* ---------- ids ---------- */

  ghost predicate Contains(s: string, t: string) {
    exists p :: MatchAt(s, t, p)
  }

  /** Every `=` stands behind one of the three-letter names. */
  ghost predicate EqualsAfter(s: string, names: set<string>) {
    forall i :: 0 <= i < |s| && s[i] == '=' ==> i >= 3 && s[i-3..i] in names
  }

  lemma EqualsPair(s: string, names: set<string>, name: string, v: string)
    requires EqualsAfter(s, names) && |name| == 3 && Lacks(name, '=') && Lacks(v, '=')
    ensures EqualsAfter(s + name + "=" + v + ",", names + {name})
    ensures Contains(s + name + "=" + v + ",", name + "=")
  {
    var t := s + name + "=" + v + ",";
    assert t[|s|..|s| + 4] == name + "=";
    assert MatchAt(t, name + "=", |s|);
    forall i | 0 <= i < |t| && t[i] == '=' ensures i >= 3 && t[i-3..i] in names + {name} {
      if i < |s| { assert t[i] == s[i] && t[i-3..i] == s[i-3..i]; }
      else { assert i == |s| + 3 && t[i-3..i] == name; }
    }
  }

  lemma ContainsStays(s: string, t: string, more: string)
    requires Contains(s, t)
    ensures Contains(s + more, t)
  {
    var p :| MatchAt(s, t, p);
    assert (s + more)[p..p + |t|] == t;
    assert MatchAt(s + more, t, p);
  }

  lemma NamesOnly(s: string, names: set<string>, name: string)
    requires EqualsAfter(s, names) && |name| == 3 && Contains(s, name + "=")
    ensures name in names
  {
    var t := name + "=";
    var p :| MatchAt(s, t, p);
    assert s[p..p + 4][3] == s[p + 3] && s[p + 3] == '=';
    assert s[p..p + 3] == s[p..p + 4][..3] == name;
  }

  /** One more id, printed or not. */
  lemma IdStep(s: string, names: set<string>, name: string, v: string) returns (s': string, names': set<string>)
    requires EqualsAfter(s, names) && |name| == 3 && Lacks(name, '=') && Lacks(v, '=')
    requires forall x :: x in names ==> Contains(s, x + "=")
    ensures s' == s + (if v == "" then "" else name + "=" + v + ",")
    ensures forall x :: x in names' <==> x in names || (x == name && v != "")
    ensures EqualsAfter(s', names') && forall x :: x in names' ==> Contains(s', x + "=")
  {
    if v == "" {
      s', names' := s, names;
      assert s + "" == s;
    } else {
      EqualsPair(s, names, name, v);
      s', names' := s + name + "=" + v + ",", names + {name};
      assert s' == s + (name + "=" + v + ",");
      forall x | x in names ensures Contains(s', x + "=") { ContainsStays(s, x + "=", name + "=" + v + ","); }
    }
  }

  /** An id is in the text if and only if it is not empty. */
  lemma IdsPrinted(m: Message)
    requires Lacks(m.typ, '=') && Lacks(m.utc, '=') && Lacks(m.gid, '=') && Lacks(m.uid, '=') && Lacks(m.cid, '=')
    ensures Contains(BaseText(m), "gid=") <==> m.gid != ""
    ensures Contains(BaseText(m), "uid=") <==> m.uid != ""
    ensures Contains(BaseText(m), "cid=") <==> m.cid != ""
  {
    hide EqualsAfter, Contains, BaseText, Lacks;
    var s4, names := IdNames(m);
    Letters();
    assert "gid" + "=" == "gid=" && "uid" + "=" == "uid=" && "cid" + "=" == "cid=";
    if Contains(s4, "gid=") { NamesOnly(s4, names, "gid"); }
    if Contains(s4, "uid=") { NamesOnly(s4, names, "uid"); }
    if Contains(s4, "cid=") { NamesOnly(s4, names, "cid"); }
  }

  lemma IdNames(m: Message) returns (text: string, names: set<string>)
    requires Lacks(m.typ, '=') && Lacks(m.utc, '=') && Lacks(m.gid, '=') && Lacks(m.uid, '=') && Lacks(m.cid, '=')
    ensures text == BaseText(m) && EqualsAfter(text, names) && forall x :: x in names ==> Contains(text, x + "=")
    ensures forall x :: x in names <==>
              x == "utc" || (x == "gid" && m.gid != "") || (x == "uid" && m.uid != "") || (x == "cid" && m.cid != "")
  {
    hide EqualsAfter, Contains, Lacks, BaseText;
    var s1 := m.typ + " " + "utc" + "=" + m.utc + ",";
    TimeTagName(m.typ, m.utc);
    var s2, n2 := IdStep(s1, {"utc"}, "gid", m.gid);
    var s3, n3 := IdStep(s2, n2, "uid", m.uid);
    text, names := IdStep(s3, n3, "cid", m.cid);
    BaseGrows(m, s1, s2, s3, text);
  }

  lemma TimeTagName(typ: string, utc: string)
    requires Lacks(typ, '=') && Lacks(utc, '=')
    ensures var s := typ + " " + "utc" + "=" + utc + ",";
            EqualsAfter(s, {"utc"}) && Contains(s, "utc" + "=")
    ensures Lacks("gid", '=') && Lacks("uid", '=') && Lacks("cid", '=')
  {
    hide Contains;
    NoEqualsYet(typ + " ");
    EqualsPair(typ + " ", {}, "utc", utc);
    assert {} + {"utc"} == {"utc"};
  }

  lemma BaseGrows(m: Message, s1: string, s2: string, s3: string, s4: string)
    requires s1 == m.typ + " " + "utc" + "=" + m.utc + ","
    requires s2 == s1 + if m.gid == "" then "" else "gid" + "=" + m.gid + ","
    requires s3 == s2 + if m.uid == "" then "" else "uid" + "=" + m.uid + ","
    requires s4 == s3 + if m.cid == "" then "" else "cid" + "=" + m.cid + ","
    ensures s4 == BaseText(m)
  {
    assert s1 == m.typ + " utc=" + m.utc + ",";
    assert "gid" + "=" == "gid=" && "uid" + "=" == "uid=" && "cid" + "=" == "cid=";
  }

  lemma NoEqualsYet(s: string)
    requires Lacks(s, '=')
    ensures EqualsAfter(s, {})
  {
  }

  lemma Letters()
    ensures "utc" != "gid" && "utc" != "uid" && "utc" != "cid" && "gid" != "uid" && "gid" != "cid" && "uid" != "cid"
  {
    assert "utc"[0] != "gid"[0] && "utc"[1] != "uid"[1] && "utc"[0] != "cid"[0];
    assert "gid"[0] != "uid"[0] && "gid"[0] != "cid"[0] && "uid"[0] != "cid"[0];
  }
}
