/** The ASCII protocol as functions: `type keyword=value,keyword=value\n` printed from a message
    and resolved back into one. The imperative coder in AsciiCoder is proved against these. */
module AsciiProtocol {
  import opened Text

  datatype Kind =
    | KRegister | KStart | KStop | KObsSite | KHomeSync | KSlewto | KTrack | KPark | KAbortSlew
    | KMount | KRain | KFocus | KSlit | KFwhm | KTakeImage | KAbortImage | KObject | KExpose
    | KCamera | KFileInfo | KFileStat

  function NameOf(k: Kind): string {
    match k
    case KRegister => "register"      case KStart => "start"
    case KStop => "stop"              case KObsSite => "obsite"
    case KHomeSync => "home_sync"     case KSlewto => "slewto"
    case KTrack => "track"            case KPark => "park"
    case KAbortSlew => "abort_slew"   case KMount => "mount"
    case KRain => "rain"              case KFocus => "focus"
    case KSlit => "slit"              case KFwhm => "fwhm"
    case KTakeImage => "take_image"   case KAbortImage => "abort_image"
    case KObject => "object"          case KExpose => "expose"
    case KCamera => "camera"          case KFileInfo => "fileinfo"
    case KFileStat => "filestat"
  }

  datatype KeyVal = KeyVal(keyword: string, value: string)

  /** What a message carries beside the common items. `Deferred` keeps the key-value list of the
      kinds whose own fields are not part of this model. */
  datatype Fields =
    | FileInfo(tmobs: string, subpath: string, filename: string, filesize: int)
    | FileStat(status: int)
    | Track(objid: string, line1: string, line2: string)
    | Deferred(kvs: seq<KeyVal>)

  datatype Message = Message(kind: Kind, typ: string, utc: string, gid: string, uid: string,
                             cid: string, fields: Fields)

  datatype Error = BadNumber | NumberRange

  /** Resolving yields a message, a null pointer, or an exception of std::stoi. */
  datatype Outcome = Resolved(m: Message) | Null | Throws(error: Error)

  datatype FieldsResult = Ok(fields: Fields) | Err(error: Error)

  /* ---------- printing ---------- */

  function JoinKv(kv: KeyVal): string {
    kv.keyword + "=" + kv.value + ","
  }

  function JoinKvs(kvs: seq<KeyVal>): string {
    if kvs == [] then "" else JoinKvs(kvs[..|kvs|-1]) + JoinKv(kvs[|kvs|-1])
  }

  function Optional(keyword: string, value: string): seq<KeyVal> {
    if value == "" then [] else [KeyVal(keyword, value)]
  }

  function BasePairs(m: Message): seq<KeyVal> {
    [KeyVal("utc", m.utc)] + Optional("gid", m.gid) + Optional("uid", m.uid) + Optional("cid", m.cid)
  }

  function FieldPairs(f: Fields): seq<KeyVal> {
    match f
    case FileInfo(tmobs, subpath, filename, filesize) =>
      [KeyVal("tmobs", tmobs), KeyVal("subpath", subpath), KeyVal("filename", filename),
       KeyVal("filesize", IntText(filesize))]
    case FileStat(status) => [KeyVal("status", IntText(status))]
    case Track(objid, line1, line2) =>
      [KeyVal("objid", objid), KeyVal("line1", line1), KeyVal("line2", line2)]
    case Deferred(_) => []
  }

  /** The text before it goes to an output slot. */
  function Body(typ: string, kvs: seq<KeyVal>): string {
    TrimRight(typ + " " + JoinKvs(kvs), IsPunctOrSpace)
  }

  /** The line sent for `m` at time tag `now`; sprintf stops at a NUL and adds the newline. */
  function Compact(m: Message, now: string): string {
    CString(Body(m.typ, BasePairs(m.(utc := now)) + FieldPairs(m.fields))) + "\n"
  }

  /* ---------- resolving ---------- */

  function ResolveKv(kv: string): Option<KeyVal> {
    var tokens := Split(kv, '=');
    var keyword := Trim(tokens[0]);
    var value := if |tokens| > 1 then Trim(tokens[1]) else "";
    if keyword == "" || value == "" then None else Some(KeyVal(keyword, value))
  }

  datatype Common = Common(utc: string, gid: string, uid: string, cid: string)
  datatype Items = Items(common: Common, kvs: seq<KeyVal>)

  function AddItem(p: Items, kv: KeyVal): Items {
    if IEquals(kv.keyword, "utc") then p.(common := p.common.(utc := kv.value))
    else if IEquals(kv.keyword, "gid") then p.(common := p.common.(gid := kv.value))
    else if IEquals(kv.keyword, "uid") then p.(common := p.common.(uid := kv.value))
    else if IEquals(kv.keyword, "cid") then p.(common := p.common.(cid := kv.value))
    else p.(kvs := p.kvs + [kv])
  }

  function ResolveItems(tokens: seq<string>): Items {
    if tokens == [] then Items(Common("", "", "", ""), [])
    else
      var p := ResolveItems(tokens[..|tokens|-1]);
      match ResolveKv(tokens[|tokens|-1])
      case None => p
      case Some(kv) => AddItem(p, kv)
  }

  function First(s: string): char {
    if s == [] then NUL else s[0]
  }

  /** The branch tree over the first letter. */
  function Dispatch(typ: string): Option<Kind> {
    var ch := First(typ);
    if ch == 'a' then
      if IEquals(typ, "abort_slew") then Some(KAbortSlew)
      else if IEquals(typ, "abort_image") then Some(KAbortImage)
      else None
    else if ch == 'f' then
      if IEquals(typ, "fileinfo") then Some(KFileInfo)
      else if IEquals(typ, "filestat") then Some(KFileStat)
      else if IEquals(typ, "fwhm") then Some(KFwhm)
      else if IEquals(typ, "focus") then Some(KFocus)
      else None
    else if ch == 'o' then
      if IEquals(typ, "object") then Some(KObject)
      else if IEquals(typ, "obsite") then Some(KObsSite)
      else None
    else if ch == 'r' then
      if IEquals(typ, "rain") then Some(KRain)
      else if IEquals(typ, "register") then Some(KRegister)
      else None
    else if ch == 's' then
      if IEquals(typ, "slewto") then Some(KSlewto)
      else if IEquals(typ, "start") then Some(KStart)
      else if IEquals(typ, "stop") then Some(KStop)
      else if IEquals(typ, "slit") then Some(KSlit)
      else None
    else if ch == 't' then
      if IEquals(typ, "take_image") then Some(KTakeImage)
      else if IEquals(typ, "track") then Some(KTrack)
      else None
    else if IEquals(typ, "camera") then Some(KCamera)
    else if IEquals(typ, "expose") then Some(KExpose)
    else if IEquals(typ, "mount") then Some(KMount)
    else if IEquals(typ, "park") then Some(KPark)
    else if IEquals(typ, "home_sync") then Some(KHomeSync)
    else None
  }

  function DefaultFields(k: Kind): Fields {
    match k
    case KFileInfo => FileInfo("", "", "", INT_MIN)
    case KFileStat => FileStat(INT_MIN)
    case KTrack => Track("", "", "")
    case _ => Deferred([])
  }

  /** std::stoi with its exceptions. */
  function ParseInt(s: string, use: int -> Fields): FieldsResult {
    match Stoi(s)
    case IntOk(n) => Ok(use(n))
    case InvalidArgument => Err(BadNumber)
    case OutOfRange => Err(NumberRange)
  }

  function Assign(f: Fields, kv: KeyVal): FieldsResult {
    match f
    case FileInfo(_, _, _, _) =>
      if IEquals(kv.keyword, "tmobs") then Ok(f.(tmobs := kv.value))
      else if IEquals(kv.keyword, "subpath") then Ok(f.(subpath := kv.value))
      else if IEquals(kv.keyword, "filename") then Ok(f.(filename := kv.value))
      else if IEquals(kv.keyword, "filesize") then ParseInt(kv.value, (n: int) => f.(filesize := n))
      else Ok(f)
    case FileStat(_) =>
      if IEquals(kv.keyword, "status") then ParseInt(kv.value, (n: int) => f.(status := n)) else Ok(f)
    case Track(_, _, _) =>
      if IEquals(kv.keyword, "objid") then Ok(f.(objid := kv.value))
      else if IEquals(kv.keyword, "line1") then Ok(f.(line1 := kv.value))
      else if IEquals(kv.keyword, "line2") then Ok(f.(line2 := kv.value))
      else Ok(f)
    case Deferred(kvs) => Ok(Deferred(kvs + [kv]))
  }

  function ResolveFields(k: Kind, kvs: seq<KeyVal>): FieldsResult {
    if kvs == [] then Ok(DefaultFields(k))
    else
      match ResolveFields(k, kvs[..|kvs|-1])
      case Err(e) => Err(e)
      case Ok(f) => Assign(f, kvs[|kvs|-1])
  }

  predicate IsBlank(c: char) {
    c == ' '
  }

  /** The key-value tokens after the type word. */
  function Tokens(rcvd: string): seq<string> {
    var rest := TrimLeft(rcvd[Find(rcvd, ' ')..], IsBlank);
    if rest == "" then [] else Split(rest, ',')
  }

  function Resolve(rcvd: string): Outcome {
    var typ := rcvd[..Find(rcvd, ' ')];
    var items := ResolveItems(Tokens(rcvd));
    match Dispatch(typ)
    case None => Null
    case Some(k) =>
      match ResolveFields(k, items.kvs)
      case Err(e) => Throws(e)
      case Ok(f) => Resolved(Message(k, typ, items.common.utc, items.common.gid, items.common.uid,
                                     items.common.cid, f))
  }

  /* ---------- which messages survive the wire ---------- */

  /** A value the grammar can carry. */
  predicate Clean(v: string) {
    Lacks(v, ',') && Lacks(v, '=') && Lacks(v, NUL) && Trimmed(v)
  }

  /** A value the right-trim of the whole line leaves alone. */
  predicate SafeAtEnd(v: string) {
    v == "" || !IsPunctOrSpace(v[|v|-1])
  }

  /** What set_timetag produces: clean, non-empty, ending in a digit. */
  predicate TimeTag(now: string) {
    Clean(now) && now != "" && IsDigit(now[|now|-1])
  }

  predicate CleanFields(f: Fields) {
    match f
    case FileInfo(tmobs, subpath, filename, _) => Clean(tmobs) && Clean(subpath) && Clean(filename)
    case FileStat(_) => true
    case Track(objid, line1, line2) => Clean(objid) && Clean(line1) && Clean(line2)
    case Deferred(_) => true
  }

  predicate CleanMessage(m: Message) {
    Clean(m.utc) && Clean(m.gid) && Clean(m.uid) && Clean(m.cid) && CleanFields(m.fields)
  }

  /** The caller's check: only a track line has a string in the last place. */
  predicate Printable(m: Message) {
    Clean(m.gid) && Clean(m.uid) && Clean(m.cid) && CleanFields(m.fields)
    && (m.fields.Track? ==> SafeAtEnd(m.fields.line2))
  }

  predicate FieldsFit(k: Kind, f: Fields) {
    match f
    case FileInfo(_, _, _, filesize) => k == KFileInfo && INT_MIN <= filesize <= INT_MAX
    case FileStat(status) => k == KFileStat && INT_MIN <= status <= INT_MAX
    case Track(_, _, _) => k == KTrack
    case Deferred(_) => false
  }

  /** A message of one of the three kinds whose fields are modelled, as the C++ types allow it. */
  predicate WellTyped(m: Message) {
    Dispatch(m.typ) == Some(m.kind) && FieldsFit(m.kind, m.fields)
  }

  /** The line without its newline. */
  function Chop(line: string): string {
    if line == "" then "" else line[..|line|-1]
  }
}
