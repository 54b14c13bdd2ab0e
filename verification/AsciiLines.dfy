/** What a line means, whoever printed it. Every line is a type word, blanks and items between runs of
    commas; an item is a keyword, a run of `=`, a value and extra parts, with any whitespace around the
    words. A keyword, up to case, has the last value given to it. */
module AsciiLines {
  import opened Text
  import opened AsciiProtocol
  import opened AsciiDispatch
  import opened AsciiNumbers
  import AsciiRoundTrip

  /* ---------- lines as they are written ---------- */

  /** A word between whitespace. */
  datatype Padded = Padded(before: string, word: string, after: string)

  predicate GoodPadded(p: Padded) {
    Spaces(p.before) && Spaces(p.after) && Trimmed(p.word) && Lacks(p.word, ',') && Lacks(p.word, '=')
  }

  function Shown(p: Padded): string {
    p.before + p.word + p.after
  }

  /** `extra` starts with the `=` after the value. */
  datatype Given = Nothing | Value(equals: nat, text: Padded, extra: string)

  /** An item and the number of commas behind it. */
  datatype Item = Item(keyword: Padded, given: Given, commas: nat)

  function GivenText(g: Given): string {
    match g
    case Nothing => ""
    case Value(equals, text, extra) => Repeat('=', equals) + (Shown(text) + extra)
  }

  function ItemText(it: Item): string {
    Shown(it.keyword) + GivenText(it.given)
  }

  predicate GoodGiven(g: Given) {
    match g
    case Nothing => true
    case Value(equals, text, extra) =>
      equals > 0 && GoodPadded(text) && Lacks(extra, ',')
      && (extra != "" ==> extra[0] == '=' && Shown(text) != "")
  }

  predicate GoodItem(it: Item) {
    GoodPadded(it.keyword) && GoodGiven(it.given) && ItemText(it) != ""
  }

  function ItemsText(items: seq<Item>): string {
    if items == [] then "" else ItemText(items[0]) + Repeat(',', items[0].commas) + ItemsText(items[1..])
  }

  predicate GoodItems(items: seq<Item>) {
    && (forall i :: 0 <= i < |items| ==> GoodItem(items[i]))
    && (forall i :: 0 <= i < |items| - 1 ==> items[i].commas > 0)
  }

  datatype Line = Line(typ: string, blanks: nat, commas: nat, items: seq<Item>)

  function Rest(l: Line): string {
    Repeat(',', l.commas) + ItemsText(l.items)
  }

  function Render(l: Line): string {
    l.typ + Repeat(' ', l.blanks) + Rest(l)
  }

  predicate GoodLine(l: Line) {
    Lacks(l.typ, ' ') && GoodItems(l.items) && (Rest(l) != "" ==> l.blanks > 0 && Rest(l)[0] != ' ')
  }

  /* ---------- every line is one ---------- */

  lemma PaddedOf(t: string) returns (p: Padded)
    requires Lacks(t, ',') && Lacks(t, '=')
    ensures GoodPadded(p) && Shown(p) == t
  {
    var r, after := RightSpaces(t);
    var before, w := LeftSpaces(r);
    p := Padded(before, w, after);
    assert w != "" ==> w[|w|-1] == r[|r|-1];
    assert t == before + w + after;
    assert forall i :: 0 <= i < |w| ==> w[i] == t[|before| + i];
  }

  lemma {:induction false} RightSpaces(t: string) returns (r: string, after: string)
    ensures t == r + after && Spaces(after) && (r != "" ==> !IsSpace(r[|r|-1]))
  {
    if t != "" && IsSpace(t[|t|-1]) {
      r, after := RightSpaces(t[..|t|-1]);
      assert t == r + (after + [t[|t|-1]]);
      after := after + [t[|t|-1]];
    } else {
      r, after := t, "";
    }
  }

  lemma {:induction false} LeftSpaces(t: string) returns (before: string, r: string)
    ensures t == before + r && Spaces(before) && (r != "" ==> !IsSpace(r[0]))
  {
    if t != "" && IsSpace(t[0]) {
      before, r := LeftSpaces(t[1..]);
      assert t == ([t[0]] + before) + r;
      before := [t[0]] + before;
    } else {
      before, r := "", t;
    }
  }

  lemma {:induction false} RunInFront(s: string, c: char) returns (n: nat, rest: string)
    ensures s == Repeat(c, n) + rest && (rest == "" || rest[0] != c)
    ensures s != "" && s[0] == c ==> n > 0
  {
    if s == "" || s[0] != c {
      n, rest := 0, s;
      assert Repeat(c, 0) + s == s;
    } else {
      n, rest := RunInFront(s[1..], c);
      RepeatTail(c, n + 1);
      n := n + 1;
      assert s == [c] + s[1..];
    }
  }

  lemma GivenOf(s: string) returns (g: Given)
    requires Lacks(s, ',') && s != "" && s[0] == '='
    ensures GoodGiven(g) && GivenText(g) == s
  {
    hide Shown, GoodPadded, Find, Repeat;
    var n, v := RunInFront(s, '=');
    assert forall i :: 0 <= i < |v| ==> v[i] == s[|s| - |v| + i];
    var b := Find(v, '=');
    LacksSlice(v, ',', b, |v|);
    assert v[b..|v|] == v[b..];
    var text := PaddedOf(v[..b]);
    g := Value(n, text, v[b..]);
    assert v[..b] + v[b..] == v;
  }

  lemma ItemOf(s: string, commas: nat) returns (it: Item)
    requires Lacks(s, ',') && s != ""
    ensures GoodItem(it) && ItemText(it) == s && it.commas == commas
  {
    hide Shown, GoodPadded, GoodGiven, GivenText;
    var a := Find(s, '=');
    var keyword := PaddedOf(s[..a]);
    assert s[..a] + s[a..] == s;
    if a == |s| {
      it := Item(keyword, Nothing, commas);
      NothingGiven();
    } else {
      var g := GivenOf(s[a..]);
      it := Item(keyword, g, commas);
    }
  }

  lemma NothingGiven()
    ensures GoodGiven(Nothing) && GivenText(Nothing) == ""
  {
  }

  lemma {:induction false} ItemsOf(s: string) returns (items: seq<Item>)
    requires s == "" || s[0] != ','
    ensures GoodItems(items) && ItemsText(items) == s
    decreases |s|
  {
    hide GoodItem, ItemText, Repeat;
    if s == "" {
      items := [];
    } else {
      var i := Find(s, ',');
      var n, rest := RunInFront(s[i..], ',');
      var it := ItemOf(s[..i], n);
      assert s == s[..i] + s[i..];
      Cut(s[..i], Repeat(',', n), rest, s);
      var more := ItemsOf(rest);
      items := [it] + more;
      assert items[1..] == more;
      if rest == "" { NoTextNoItems(more); }
    }
  }

  lemma NoTextNoItems(items: seq<Item>)
    requires GoodItems(items) && ItemsText(items) == ""
    ensures items == []
  {
  }

  lemma Cut(t: string, run: string, rest: string, s: string)
    requires s == t + (run + rest)
    ensures s == t + run + rest
  {
  }

  /** Every text whatever is such a line, so what follows is about every line. */
  lemma EveryLine(s: string) returns (l: Line)
    ensures GoodLine(l) && Render(l) == s
  {
    hide GoodItem, ItemText, Repeat, GoodItems, ItemsText, Find;
    var i := Find(s, ' ');
    var blanks, rest := RunInFront(s[i..], ' ');
    var commas, text := RunInFront(rest, ',');
    var items := ItemsOf(text);
    l := Line(s[..i], blanks, commas, items);
    assert s == s[..i] + s[i..];
    Cut(s[..i], Repeat(' ', blanks), rest, s);
    assert Rest(l) == rest;
  }

  /* ---------- what they say ---------- */

  /** The item gives `name` a value. */
  predicate Gives(it: Item, name: string) {
    it.keyword.word != "" && it.given.Value? && it.given.text.word != "" && IEquals(it.keyword.word, name)
  }

  /** The last value given to `name`. */
  function LastGiven(items: seq<Item>, name: string): Option<string> {
    if items == [] then None
    else
      var last := items[|items|-1];
      if Gives(last, name) then Some(last.given.text.word) else LastGiven(items[..|items|-1], name)
  }

  function WordOf(items: seq<Item>, name: string): string {
    var v := LastGiven(items, name);
    if v.Some? then v.value else ""
  }

  /** The exception of the first number that is none among those given to `name`. */
  function BadNumberOf(items: seq<Item>, name: string): Option<Error> {
    if items == [] then None
    else
      var last, before := items[|items|-1], BadNumberOf(items[..|items|-1], name);
      if before.Some? || !Gives(last, name) then before
      else
        match Stoi(last.given.text.word)
        case IntOk(_) => None
        case InvalidArgument => Some(BadNumber)
        case OutOfRange => Some(NumberRange)
  }

  function NumberOf(items: seq<Item>, name: string): int {
    var v := LastGiven(items, name);
    if v.Some? && Stoi(v.value).IntOk? then Stoi(v.value).n else -0x8000_0000
  }

  /* ---------- tokens ---------- */

  lemma ShownLacks(p: Padded)
    requires GoodPadded(p)
    ensures Lacks(Shown(p), ',') && Lacks(Shown(p), '=')
  {
  }

  lemma GivenLacks(g: Given)
    requires GoodGiven(g)
    ensures Lacks(GivenText(g), ',')
  {
    if g.Value? { ShownLacks(g.text); }
    hide Shown, GoodPadded;
  }

  lemma ItemLacks(it: Item)
    requires GoodItem(it)
    ensures Lacks(ItemText(it), ',')
  {
    ShownLacks(it.keyword);
    GivenLacks(it.given);
    hide Shown, GivenText, GoodPadded, GoodGiven;
  }

  /** The pair an item gives, if any. */
  function Pair(it: Item): Option<KeyVal> {
    if it.keyword.word != "" && it.given.Value? && it.given.text.word != ""
    then Some(KeyVal(it.keyword.word, it.given.text.word)) else None
  }

  lemma WordResolves(p: Padded)
    requires GoodPadded(p)
    ensures Trim(Shown(p)) == p.word
  {
    TrimPadded(p.before, p.word, p.after);
  }

  lemma FirstToken(t: string, extra: string)
    requires Lacks(t, '=') && (extra != "" ==> extra[0] == '=')
    ensures Split(t + extra, '=')[0] == t
  {
    var s := t + extra;
    assert s[..|t|] == t;
    FindUnique(s, '=', |t|);
  }

  lemma ItemTokens(it: Item)
    requires GoodItem(it)
    ensures var tokens := Split(ItemText(it), '=');
            tokens[0] == Shown(it.keyword)
            && if it.given.Value? then |tokens| > 1 && tokens[1] == Shown(it.given.text) else |tokens| == 1
  {
    hide Shown, Split, Repeat, GoodPadded, Lacks;
    ShownLacks(it.keyword);
    var k := Shown(it.keyword);
    match it.given
    case Nothing =>
      assert ItemText(it) == k;
      SplitOne(k, '=');
    case Value(equals, text, extra) =>
      ShownLacks(text);
      FirstToken(Shown(text), extra);
      NoEquals(Shown(text), extra);
      SplitRun(k, equals, Shown(text) + extra, '=');
      assert ItemText(it) == k + Repeat('=', equals) + (Shown(text) + extra);
  }

  lemma NoEquals(t: string, extra: string)
    requires Lacks(t, '=') && (extra != "" ==> t != "")
    ensures t + extra == "" || (t + extra)[0] != '='
  {
  }

  lemma ItemResolves(it: Item)
    requires GoodItem(it)
    ensures ResolveKv(ItemText(it)) == Pair(it)
  {
    hide Split, Trim, Shown, GoodPadded, ItemText;
    ItemTokens(it);
    WordResolves(it.keyword);
    if it.given.Value? { WordResolves(it.given.text); }
  }

  function Texts(items: seq<Item>): (r: seq<string>)
    ensures |r| == |items| && forall i :: 0 <= i < |r| ==> r[i] == ItemText(items[i])
  {
    seq(|items|, i requires 0 <= i < |items| => ItemText(items[i]))
  }

  /** A comma at the end of the line leaves an empty token. */
  function Ending(items: seq<Item>): seq<string> {
    if items == [] || items[|items|-1].commas > 0 then [""] else []
  }

  lemma {:induction false} ItemsTokens(items: seq<Item>)
    requires GoodItems(items)
    ensures Split(ItemsText(items), ',') == Texts(items) + Ending(items)
    ensures if items == [] then ItemsText(items) == "" else ItemsText(items) != "" && ItemsText(items)[0] != ','
  {
    hide ItemText, Split, GoodItem;
    if items == [] {
      SplitOne("", ',');
    } else {
      var it, more := items[0], items[1..];
      GoodIsText(it);
      ItemsTokens(more);
      OneItem(it, ItemsText(more));
      assert Texts(items) == [ItemText(it)] + Texts(more);
      assert items == [it] + more;
    }
  }

  lemma GoodIsText(it: Item)
    requires GoodItem(it)
    ensures ItemText(it) != "" && ItemText(it)[0] != ',' && Lacks(ItemText(it), ',')
  {
    ItemLacks(it);
  }

  lemma OneItem(it: Item, rest: string)
    requires ItemText(it) != "" && Lacks(ItemText(it), ',')
    requires (it.commas == 0 ==> rest == "") && (rest == "" || rest[0] != ',')
    ensures Split(ItemText(it) + Repeat(',', it.commas) + rest, ',') ==
            [ItemText(it)] + if it.commas == 0 then [] else Split(rest, ',')
  {
    hide ItemText, Split;
    var t := ItemText(it);
    if it.commas == 0 {
      assert t + Repeat(',', 0) + "" == t;
      SplitOne(t, ',');
    } else {
      SplitRun(t, it.commas, rest, ',');
    }
  }

  /** The tokens of a line, up to empty ones in front and at the end. */
  lemma LineTokens(l: Line)
    requires GoodLine(l)
    ensures Render(l)[..Find(Render(l), ' ')] == l.typ
    ensures exists front, end :: Tokens(Render(l)) == Empties(front) + Texts(l.items) + Empties(end)
  {
    hide ItemsText, Find, TrimLeft, Split, GoodItems;
    WordAndRest(l.typ, l.blanks, Rest(l));
    var s := Render(l);
    if Rest(l) == "" {
      NothingShown(l);
      assert Empties(0) + Texts(l.items) + Empties(0) == [];
      assert Tokens(s) == [];
    } else {
      RestTokens(l);
      assert Tokens(s) == Split(Rest(l), ',');
    }
  }

  function Empties(n: nat): (r: seq<string>)
    ensures |r| == n && forall i :: 0 <= i < n ==> r[i] == ""
  {
    seq(n, i => "")
  }

  lemma NothingShown(l: Line)
    requires GoodItems(l.items) && Rest(l) == ""
    ensures l.items == []
  {
    if l.items != [] { ItemsTokens(l.items); }
  }

  lemma RestTokens(l: Line)
    requires GoodItems(l.items)
    ensures exists front, end :: Split(Rest(l), ',') == Empties(front) + Texts(l.items) + Empties(end)
  {
    hide ItemsText, Split, GoodItems, Texts, Repeat;
    var rest := ItemsText(l.items);
    ItemsTokens(l.items);
    EndingIsEmpties(l.items);
    var texts, end := Texts(l.items), Empties(|Ending(l.items)|);
    if l.commas == 0 {
      assert Rest(l) == rest;
      assert Empties(0) + texts + end == texts + end;
    } else {
      SplitRun("", l.commas, rest, ',');
      assert "" + Repeat(',', l.commas) + rest == Rest(l);
      Regroup([""], texts, end);
      assert [""] == Empties(1);
    }
  }

  lemma EndingIsEmpties(items: seq<Item>)
    ensures Ending(items) == Empties(|Ending(items)|)
  {
  }

  lemma Regroup(a: seq<string>, b: seq<string>, c: seq<string>)
    ensures a + (b + c) == a + b + c
  {
  }

  lemma WordAndRest(typ: string, blanks: nat, rest: string)
    requires Lacks(typ, ' ') && (rest != "" ==> blanks > 0 && rest[0] != ' ')
    ensures var s := typ + Repeat(' ', blanks) + rest;
            s[..Find(s, ' ')] == typ && TrimLeft(s[Find(s, ' ')..], IsBlank) == rest
  {
    hide TrimLeft, Find;
    var s := typ + Repeat(' ', blanks) + rest;
    assert s[..|typ|] == typ;
    FindUnique(s, ' ', |typ|);
    var t := s[|typ|..];
    assert t == Repeat(' ', blanks) + rest;
    TrimLeftUnique(t, IsBlank, blanks);
    assert t[blanks..] == rest;
  }

  /* ---------- from tokens to words ---------- */

  /** Empty tokens give nothing. */
  lemma {:induction false} EmptiesAtEnd(tokens: seq<string>, n: nat)
    ensures ResolveItems(tokens + Empties(n)) == ResolveItems(tokens)
  {
    hide ResolveKv, AddItem;
    var all := tokens + Empties(n);
    if n == 0 {
      assert all == tokens;
    } else {
      EmptiesAtEnd(tokens, n - 1);
      assert all[..|all|-1] == tokens + Empties(n - 1);
      EmptyResolves();
    }
  }

  lemma EmptyResolves()
    ensures ResolveKv("") == None
  {
    SplitOne("", '=');
  }

  /** The items of a line, folded as the coder does. */
  function Folded(items: seq<Item>): Items {
    if items == [] then Items(Common("", "", "", ""), [])
    else
      match Pair(items[|items|-1])
      case None => Folded(items[..|items|-1])
      case Some(kv) => AddItem(Folded(items[..|items|-1]), kv)
  }

  lemma {:induction false} TextsResolve(front: nat, items: seq<Item>)
    requires forall i :: 0 <= i < |items| ==> GoodItem(items[i])
    ensures ResolveItems(Empties(front) + Texts(items)) == Folded(items)
  {
    hide GoodItem, ItemText, Pair, AddItem, ResolveKv;
    var all := Empties(front) + Texts(items);
    if items == [] {
      EmptiesAtEnd([], front);
      assert [] + Empties(front) == all;
    } else {
      var init, last := items[..|items|-1], items[|items|-1];
      TextsResolve(front, init);
      ItemResolves(last);
      assert all[..|all|-1] == Empties(front) + Texts(init);
      assert all[|all|-1] == ItemText(last);
    }
  }

  lemma LineFolds(l: Line)
    requires GoodLine(l)
    ensures Render(l)[..Find(Render(l), ' ')] == l.typ && ResolveItems(Tokens(Render(l))) == Folded(l.items)
  {
    hide Render, Find, Tokens, ResolveItems, Folded, GoodItem;
    LineTokens(l);
    var front, end :| Tokens(Render(l)) == Empties(front) + Texts(l.items) + Empties(end);
    EmptiesAtEnd(Empties(front) + Texts(l.items), end);
    TextsResolve(front, l.items);
  }

  predicate IsCommon(keyword: string) {
    IEquals(keyword, "utc") || IEquals(keyword, "gid") || IEquals(keyword, "uid") || IEquals(keyword, "cid")
  }

  lemma Apart(s: string, a: string, b: string)
    requires IEquals(s, a) && IEquals(s, b)
    ensures IEquals(a, b)
  {
  }

  lemma CommonApart(s: string)
    ensures IEquals(s, "utc") ==> !IEquals(s, "gid") && !IEquals(s, "uid") && !IEquals(s, "cid")
    ensures IEquals(s, "gid") ==> !IEquals(s, "uid") && !IEquals(s, "cid")
    ensures IEquals(s, "uid") ==> !IEquals(s, "cid")
  {
    if |s| == 3 {
      assert ToUpper("gid"[0]) != ToUpper("utc"[0]) && ToUpper("cid"[0]) != ToUpper("utc"[0]);
      assert ToUpper("uid"[1]) != ToUpper("utc"[1]);
      assert ToUpper("uid"[0]) != ToUpper("gid"[0]) && ToUpper("cid"[0]) != ToUpper("gid"[0]);
      assert ToUpper("cid"[0]) != ToUpper("uid"[0]);
    }
  }

  /** The common items hold the last values given to them, in every spelling. */
  lemma {:induction false} CommonWords(items: seq<Item>)
    ensures Folded(items).common ==
            Common(WordOf(items, "utc"), WordOf(items, "gid"), WordOf(items, "uid"), WordOf(items, "cid"))
  {
    hide IEquals;
    if items != [] {
      CommonWords(items[..|items|-1]);
      CommonApart(items[|items|-1].keyword.word);
    }
  }

  lemma FieldsOfLast(k: Kind, items: seq<Item>)
    requires items != []
    ensures var last, before := items[|items|-1], ResolveFields(k, Folded(items[..|items|-1]).kvs);
            ResolveFields(k, Folded(items).kvs) ==
            match Pair(last)
            case None => before
            case Some(kv) =>
              if IsCommon(kv.keyword) || before.Err? then before else Assign(before.fields, kv)
  {
    hide IEquals, Assign, ResolveFields;
    var p, last := Folded(items[..|items|-1]), items[|items|-1];
    if Pair(last).Some? { AsciiRoundTrip.ResolveFieldsAppend(k, p.kvs, Pair(last).value); }
  }

  lemma NoCommonName(s: string, name: string)
    requires IEquals(s, name) && |name| != 3
    ensures !IsCommon(s)
  {
  }

  /* ---------- file information ---------- */

  lemma FileInfoApart(s: string)
    ensures IEquals(s, "tmobs") ==> !IEquals(s, "subpath") && !IEquals(s, "filename") && !IEquals(s, "filesize")
    ensures IEquals(s, "subpath") ==> !IEquals(s, "filename") && !IEquals(s, "filesize")
    ensures IEquals(s, "filename") ==> !IEquals(s, "filesize")
    ensures IsCommon(s) ==>
              !IEquals(s, "tmobs") && !IEquals(s, "subpath") && !IEquals(s, "filename") && !IEquals(s, "filesize")
  {
    assert ToUpper("filename"[4]) != ToUpper("filesize"[4]);
  }

  lemma {:induction false} FileInfoWords(items: seq<Item>)
    ensures ResolveFields(KFileInfo, Folded(items).kvs) ==
            match BadNumberOf(items, "filesize")
            case Some(e) => Err(e)
            case None => Ok(FileInfo(WordOf(items, "tmobs"), WordOf(items, "subpath"), WordOf(items, "filename"),
                                     NumberOf(items, "filesize")))
  {
    hide IEquals, Stoi, Folded, ResolveFields, IsCommon;
    if items == [] {
      NoItems(KFileInfo);
    } else {
      FileInfoWords(items[..|items|-1]);
      FieldsOfLast(KFileInfo, items);
      FileInfoApart(items[|items|-1].keyword.word);
    }
  }

  lemma NoItems(k: Kind)
    ensures ResolveFields(k, Folded([]).kvs) == Ok(DefaultFields(k))
  {
  }

  /** Every fileinfo line: each string is the last value given to its keyword, in any spelling, or
      empty; the size is the last one given, or -2^31; and the first size that is no number throws. */
  lemma FileInfoLine(l: Line)
    requires GoodLine(l) && IEquals(l.typ, "fileinfo") && l.typ[0] == 'f'
    ensures Resolve(Render(l)) ==
            match BadNumberOf(l.items, "filesize")
            case Some(e) => Throws(e)
            case None =>
              Resolved(Message(KFileInfo, l.typ, WordOf(l.items, "utc"), WordOf(l.items, "gid"),
                               WordOf(l.items, "uid"), WordOf(l.items, "cid"),
                               FileInfo(WordOf(l.items, "tmobs"), WordOf(l.items, "subpath"),
                                        WordOf(l.items, "filename"), NumberOf(l.items, "filesize"))))
  {
    hide Render, GoodLine, Dispatch, ResolveItems, Tokens, Find, Folded, ResolveFields, WordOf, BadNumberOf,
      NumberOf, IEquals;
    LineFolds(l);
    CommonWords(l.items);
    FileInfoWords(l.items);
    DispatchExactly(l.typ, KFileInfo);
  }

  /* ---------- status ---------- */

  lemma StatusApart(s: string)
    requires IsCommon(s)
    ensures !IEquals(s, "status")
  {
  }

  lemma {:induction false} FileStatWords(items: seq<Item>)
    ensures ResolveFields(KFileStat, Folded(items).kvs) ==
            match BadNumberOf(items, "status")
            case Some(e) => Err(e)
            case None => Ok(FileStat(NumberOf(items, "status")))
  {
    hide IEquals, Stoi, Folded, ResolveFields, IsCommon;
    if items == [] {
      NoItems(KFileStat);
    } else {
      FileStatWords(items[..|items|-1]);
      FieldsOfLast(KFileStat, items);
      if IsCommon(items[|items|-1].keyword.word) { StatusApart(items[|items|-1].keyword.word); }
    }
  }

  lemma FileStatLine(l: Line)
    requires GoodLine(l) && IEquals(l.typ, "filestat") && l.typ[0] == 'f'
    ensures Resolve(Render(l)) ==
            match BadNumberOf(l.items, "status")
            case Some(e) => Throws(e)
            case None =>
              Resolved(Message(KFileStat, l.typ, WordOf(l.items, "utc"), WordOf(l.items, "gid"),
                               WordOf(l.items, "uid"), WordOf(l.items, "cid"), FileStat(NumberOf(l.items, "status"))))
  {
    hide Render, GoodLine, Dispatch, ResolveItems, Tokens, Find, Folded, ResolveFields, WordOf, BadNumberOf,
      NumberOf, IEquals;
    LineFolds(l);
    CommonWords(l.items);
    FileStatWords(l.items);
    DispatchExactly(l.typ, KFileStat);
  }

  /* ---------- tracks ---------- */

  lemma TrackApart(s: string)
    ensures IEquals(s, "objid") ==> !IEquals(s, "line1") && !IEquals(s, "line2")
    ensures IEquals(s, "line1") ==> !IEquals(s, "line2")
    ensures IsCommon(s) ==> !IEquals(s, "objid") && !IEquals(s, "line1") && !IEquals(s, "line2")
  {
    assert ToUpper("objid"[0]) != ToUpper("line1"[0]) && ToUpper("objid"[0]) != ToUpper("line2"[0]);
    assert ToUpper("line1"[4]) != ToUpper("line2"[4]);
  }

  lemma {:induction false} TrackWords(items: seq<Item>)
    ensures ResolveFields(KTrack, Folded(items).kvs) ==
            Ok(Track(WordOf(items, "objid"), WordOf(items, "line1"), WordOf(items, "line2")))
  {
    hide IEquals, Folded, ResolveFields, IsCommon;
    if items == [] {
      NoItems(KTrack);
    } else {
      TrackWords(items[..|items|-1]);
      FieldsOfLast(KTrack, items);
      TrackApart(items[|items|-1].keyword.word);
    }
  }

  lemma TrackLine(l: Line)
    requires GoodLine(l) && IEquals(l.typ, "track") && l.typ[0] == 't'
    ensures Resolve(Render(l)) ==
            Resolved(Message(KTrack, l.typ, WordOf(l.items, "utc"), WordOf(l.items, "gid"),
                             WordOf(l.items, "uid"), WordOf(l.items, "cid"),
                             Track(WordOf(l.items, "objid"), WordOf(l.items, "line1"), WordOf(l.items, "line2"))))
  {
    hide Render, GoodLine, Dispatch, ResolveItems, Tokens, Find, Folded, ResolveFields, WordOf, IEquals;
    LineFolds(l);
    CommonWords(l.items);
    TrackWords(l.items);
    DispatchExactly(l.typ, KTrack);
  }

  /** Which lines give a null pointer: those whose type word is none of the 21 names, or is shadowed. */
  lemma NullLine(l: Line)
    requires GoodLine(l)
    ensures Resolve(Render(l)) == Null <==>
            ShadowedType(l.typ) || forall k: Kind :: !IEquals(l.typ, NameOf(k))
  {
    hide Render, GoodLine, ResolveItems, Tokens, Find, ResolveFields, IEquals, ShadowedType, NameOf, Dispatch;
    LineFolds(l);
    forall k: Kind ensures Dispatch(l.typ) == Some(k) <==> IEquals(l.typ, NameOf(k)) && !ShadowedType(l.typ) {
      DispatchExactly(l.typ, k);
    }
  }

  /* ---------- the numbers of the other kinds ---------- */

  /** The keywords of each kind that hold whole numbers, in any spelling. */
  predicate WholeKey(k: Kind, s: string) {
    match k
    case KObsSite => IEquals(s, "timezone")
    case KSlewto => IEquals(s, "coorsys")
    case KMount => IEquals(s, "state") || IEquals(s, "errcode")
    case KFocus => IEquals(s, "state") || IEquals(s, "value")
    case KSlit => IEquals(s, "state") || IEquals(s, "command")
    case KRain => IEquals(s, "value")
    case KTakeImage => IEquals(s, "frmcnt")
    case KExpose => IEquals(s, "command")
    case KCamera => IEquals(s, "state") || IEquals(s, "errcode")
    case KObject => IEquals(s, "plan_type") || IEquals(s, "iimgtyp") || IEquals(s, "frmcnt")
    case _ => false
  }

  /** Those that hold real numbers. */
  predicate RealKey(k: Kind, s: string) {
    match k
    case KObsSite => IEquals(s, "longitude") || IEquals(s, "latitude") || IEquals(s, "altitude")
    case KHomeSync => IEquals(s, "ra") || IEquals(s, "dec")
    case KSlewto => IEquals(s, "coor1") || IEquals(s, "coor2")
    case KMount => IEquals(s, "ra") || IEquals(s, "dec") || IEquals(s, "azi") || IEquals(s, "alt")
    case KFwhm => IEquals(s, "value")
    case KTakeImage => IEquals(s, "expdur")
    case KCamera => IEquals(s, "coolget")
    case KObject => IEquals(s, "expdur")
    case _ => false
  }

  /** Object messages do not see keywords that start with a capital E, I or P. */
  predicate Unseen(k: Kind, s: string) {
    k == KObject && First(s) in {'E', 'I', 'P'}
  }

  lemma ReadsPlain(k: Kind, s: string)
    requires k != KObject
    ensures NumberAt(k, s) == Integer <==> WholeKey(k, s)
    ensures NumberAt(k, s) == Double <==> RealKey(k, s)
  {
    KeyKindsApart(k, s);
    hide IEquals;
  }

  lemma KeyKindsApart(k: Kind, s: string)
    ensures !(WholeKey(k, s) && RealKey(k, s))
    ensures WholeKey(k, s) || RealKey(k, s) ==> !IsCommon(s)
  {
    assert ToUpper("timezone"[0]) != ToUpper("latitude"[0]) && ToUpper("timezone"[0]) != ToUpper("altitude"[0]);
    assert ToUpper("frmcnt"[0]) != ToUpper("expdur"[0]) && ToUpper("errcode"[0]) != ToUpper("coolget"[0]);
    if |s| == 3 { ShortKeys(s); }
  }

  lemma ShortKeys(s: string)
    requires |s| == 3
    ensures IEquals(s, "dec") || IEquals(s, "azi") || IEquals(s, "alt") ==> !IsCommon(s)
  {
    assert ToUpper("dec"[0]) == 'D' && ToUpper("azi"[0]) == 'A' && ToUpper("alt"[0]) == 'A';
    assert ToUpper("utc"[0]) == 'U' && ToUpper("gid"[0]) == 'G' && ToUpper("uid"[0]) == 'U' && ToUpper("cid"[0]) == 'C';
  }

  lemma ReadsObject(s: string)
    ensures NumberAt(KObject, s) == Integer <==> WholeKey(KObject, s) && !Unseen(KObject, s)
    ensures NumberAt(KObject, s) == Double <==> RealKey(KObject, s) && !Unseen(KObject, s)
  {
    ObjectLetters(s);
    KeyKindsApart(KObject, s);
    hide IEquals;
  }

  lemma ObjectLetters(s: string)
    ensures IEquals(s, "expdur") || IEquals(s, "etime") ==> First(s) in {'e', 'E'}
    ensures IEquals(s, "iimgtyp") || IEquals(s, "imgtype") ==> First(s) in {'i', 'I'}
    ensures IEquals(s, "plan_type") || IEquals(s, "plan_sn") ==> First(s) in {'p', 'P'}
    ensures IEquals(s, "frmcnt") ==> First(s) in {'f', 'F'}
    ensures IEquals(s, "btime") ==> First(s) in {'b', 'B'}
    ensures IEquals(s, "objname") ==> First(s) in {'o', 'O'}
    ensures IEquals(s, "plan_type") ==> !IEquals(s, "plan_sn")
    ensures IEquals(s, "iimgtyp") ==> !IEquals(s, "imgtype")
  {
    assert ToUpper("iimgtyp"[1]) != ToUpper("imgtype"[1]);
    if s != "" {
      assert ToUpper("expdur"[0]) == 'E' && ToUpper("etime"[0]) == 'E' && ToUpper("iimgtyp"[0]) == 'I';
      assert ToUpper("imgtype"[0]) == 'I' && ToUpper("plan_type"[0]) == 'P' && ToUpper("plan_sn"[0]) == 'P';
      assert ToUpper("frmcnt"[0]) == 'F' && ToUpper("btime"[0]) == 'B' && ToUpper("objname"[0]) == 'O';
    }
  }

  /** The item gives a number that is none. */
  predicate Breaks(k: Kind, it: Item, stod: Stod) {
    Pair(it).Some?
    && (var s, v := it.keyword.word, it.given.text.word;
        !Unseen(k, s) && ((WholeKey(k, s) && !Stoi(v).IntOk?) || (RealKey(k, s) && !stod(v).RealOk?)))
  }

  lemma BreaksIsCheck(k: Kind, it: Item, stod: Stod)
    requires Pair(it).Some?
    ensures Breaks(k, it, stod) <==> !IsCommon(it.keyword.word) && Check(k, Pair(it).value, stod).Some?
  {
    hide IEquals, Stoi, NumberAt, WholeKey, RealKey, IsCommon;
    var s := it.keyword.word;
    KeyKindsApart(k, s);
    if k == KObject { ReadsObject(s); } else { ReadsPlain(k, s); }
  }

  /** The exception it throws. */
  function BreakError(k: Kind, it: Item, stod: Stod): Error
    requires Pair(it).Some?
  {
    var s, v := it.keyword.word, it.given.text.word;
    if WholeKey(k, s) then (if Stoi(v) == OutOfRange then NumberRange else BadNumber)
    else if stod(v) == RealRange then NumberRange else BadNumber
  }

  /** The exception of the first item that breaks. */
  function FirstBreak(k: Kind, items: seq<Item>, stod: Stod): Option<Error> {
    if items == [] then None
    else
      var last, before := items[|items|-1], FirstBreak(k, items[..|items|-1], stod);
      if before.None? && Breaks(k, last, stod) then Some(BreakError(k, last, stod)) else before
  }

  lemma {:induction false} FirstBreakExists(k: Kind, items: seq<Item>, stod: Stod)
    ensures FirstBreak(k, items, stod).Some? <==> exists i :: 0 <= i < |items| && Breaks(k, items[i], stod)
  {
    hide Breaks, BreakError;
    if items != [] {
      var init, last := items[..|items|-1], items[|items|-1];
      FirstBreakExists(k, init, stod);
      assert forall i :: 0 <= i < |init| ==> items[i] == init[i];
      assert (exists i :: 0 <= i < |items| && Breaks(k, items[i], stod)) <==>
             Breaks(k, last, stod) || exists i :: 0 <= i < |init| && Breaks(k, init[i], stod);
    }
  }

  lemma BreakIsCheck(k: Kind, it: Item, stod: Stod)
    requires Pair(it).Some? && Breaks(k, it, stod)
    ensures Check(k, Pair(it).value, stod) == Some(BreakError(k, it, stod))
  {
    hide IEquals, Stoi, NumberAt, WholeKey, RealKey;
    var s := it.keyword.word;
    KeyKindsApart(k, s);
    if k == KObject { ReadsObject(s); } else { ReadsPlain(k, s); }
  }

  lemma {:induction false} FirstErrorIsBreak(k: Kind, items: seq<Item>, stod: Stod)
    ensures FirstError(k, Folded(items).kvs, stod) == FirstBreak(k, items, stod)
  {
    hide Check, Breaks, IEquals, BreakError;
    if items != [] {
      var init, last := items[..|items|-1], items[|items|-1];
      FirstErrorIsBreak(k, init, stod);
      if Pair(last).Some? {
        BreaksIsCheck(k, last, stod);
        if Breaks(k, last, stod) { BreakIsCheck(k, last, stod); }
        LastError(k, Folded(init).kvs, Pair(last).value, stod);
      } else {
        NoBreak(k, last, stod);
      }
    }
  }

  lemma NoBreak(k: Kind, it: Item, stod: Stod)
    requires Pair(it).None?
    ensures !Breaks(k, it, stod)
  {
  }

  lemma LastError(k: Kind, kvs: seq<KeyVal>, kv: KeyVal, stod: Stod)
    ensures FirstError(k, kvs + [kv], stod) ==
            if FirstError(k, kvs, stod).Some? then FirstError(k, kvs, stod) else Check(k, kv, stod)
  {
    assert (kvs + [kv])[..|kvs|] == kvs;
  }

  /** The pairs given by a line other than the common items, in order. */
  function OtherPairs(items: seq<Item>): seq<KeyVal> {
    if items == [] then []
    else
      var it, before := items[|items|-1], OtherPairs(items[..|items|-1]);
      if it.keyword.word != "" && it.given.Value? && it.given.text.word != "" && !IsCommon(it.keyword.word)
      then before + [KeyVal(it.keyword.word, it.given.text.word)] else before
  }

  lemma {:induction false} OthersKept(items: seq<Item>)
    ensures Folded(items).kvs == OtherPairs(items)
  {
    hide IEquals;
    if items != [] { OthersKept(items[..|items|-1]); }
  }

  /** Lines of the other kinds throw exactly when some keyword that the kind reads as a number, in any
      spelling it sees, is given something else, and the first such item decides the exception. All
      other lines of these kinds resolve, with their pairs in order. */
  lemma NumbersLine(l: Line, k: Kind, stod: Stod)
    requires GoodLine(l) && IEquals(l.typ, NameOf(k)) && !ShadowedType(l.typ)
    requires k !in {KFileInfo, KFileStat, KTrack}
    ensures WithErrors(Resolve(Render(l)), stod) ==
            match FirstBreak(k, l.items, stod)
            case Some(e) => Throws(e)
            case None =>
              Resolved(Message(k, l.typ, WordOf(l.items, "utc"), WordOf(l.items, "gid"), WordOf(l.items, "uid"),
                               WordOf(l.items, "cid"), Deferred(OtherPairs(l.items))))
  {
    hide Render, GoodLine, Dispatch, ResolveItems, Tokens, Find, Folded, ResolveFields, WordOf, IEquals, FirstBreak,
      FirstError, ShadowedType, NameOf, OtherPairs;
    LineFolds(l);
    CommonWords(l.items);
    OthersKept(l.items);
    DispatchExactly(l.typ, k);
    DeferredKeeps(k, Folded(l.items).kvs);
    FirstErrorIsBreak(k, l.items, stod);
  }
}
