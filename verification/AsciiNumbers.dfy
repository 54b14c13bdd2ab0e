/** The numbers in messages whose fields are not kept: which keywords of which kinds are read as
    numbers, and the exceptions that reading them throws. */
module AsciiNumbers {
  import opened Text
  import opened AsciiProtocol
  import opened AsciiDispatch

  datatype Number = Untyped | Integer | Double

  /** How resolving a message of kind `k` reads the value of a keyword. */
  function NumberAt(k: Kind, keyword: string): Number {
    match k
    case KObsSite =>
      if IEquals(keyword, "longitude") then Double
      else if IEquals(keyword, "latitude") then Double
      else if IEquals(keyword, "altitude") then Double
      else if IEquals(keyword, "timezone") then Integer
      else Untyped
    case KHomeSync =>
      if IEquals(keyword, "ra") then Double
      else if IEquals(keyword, "dec") then Double
      else Untyped
    case KSlewto =>
      if IEquals(keyword, "coorsys") then Integer
      else if IEquals(keyword, "coor1") then Double
      else if IEquals(keyword, "coor2") then Double
      else Untyped
    case KMount =>
      if IEquals(keyword, "state") then Integer
      else if IEquals(keyword, "errcode") then Integer
      else if IEquals(keyword, "ra") then Double
      else if IEquals(keyword, "dec") then Double
      else if IEquals(keyword, "azi") then Double
      else if IEquals(keyword, "alt") then Double
      else Untyped
    case KFwhm => if IEquals(keyword, "value") then Double else Untyped
    case KFocus =>
      if IEquals(keyword, "state") then Integer
      else if IEquals(keyword, "value") then Integer
      else Untyped
    case KSlit =>
      if IEquals(keyword, "state") then Integer
      else if IEquals(keyword, "command") then Integer
      else Untyped
    case KRain => if IEquals(keyword, "value") then Integer else Untyped
    case KTakeImage =>
      if IEquals(keyword, "expdur") then Double
      else if IEquals(keyword, "frmcnt") then Integer
      else Untyped
    case KExpose => if IEquals(keyword, "command") then Integer else Untyped
    case KCamera =>
      if IEquals(keyword, "state") then Integer
      else if IEquals(keyword, "errcode") then Integer
      else if IEquals(keyword, "coolget") then Double
      else Untyped
    case KObject => ObjectNumberAt(keyword)
    case _ => Untyped
  }

  /** The branches of resolve_object that read numbers. */
  function ObjectNumberAt(keyword: string): Number {
    var ch := First(keyword);
    if IEquals(keyword, "btime") then Untyped
    else if ch == 'e' then if IEquals(keyword, "expdur") then Double else Untyped
    else if IEquals(keyword, "frmcnt") then Integer
    else if ch == 'i' then
      if IEquals(keyword, "imgtype") then Untyped else if IEquals(keyword, "iimgtyp") then Integer else Untyped
    else if IEquals(keyword, "objname") then Untyped
    else if ch == 'p' then
      if IEquals(keyword, "plan_sn") then Untyped else if IEquals(keyword, "plan_type") then Integer else Untyped
    else Untyped
  }

  /** The exception that taking one pair throws. */
  function Check(k: Kind, kv: KeyVal, stod: Stod): Option<Error> {
    match NumberAt(k, kv.keyword)
    case Untyped => None
    case Integer =>
      (match Stoi(kv.value)
       case IntOk(_) => None
       case InvalidArgument => Some(BadNumber)
       case OutOfRange => Some(NumberRange))
    case Double =>
      match stod(kv.value)
      case RealOk(_) => None
      case RealInvalid => Some(BadNumber)
      case RealRange => Some(NumberRange)
  }

  function FirstError(k: Kind, kvs: seq<KeyVal>, stod: Stod): Option<Error> {
    if kvs == [] then None
    else
      match FirstError(k, kvs[..|kvs|-1], stod)
      case Some(e) => Some(e)
      case None => Check(k, kvs[|kvs|-1], stod)
  }

  /** The outcome of resolving, with the exceptions of all kinds. */
  function WithErrors(o: Outcome, stod: Stod): Outcome {
    match o
    case Resolved(m) =>
      (match m.fields
       case Deferred(kvs) =>
         (match FirstError(m.kind, kvs, stod) case Some(e) => Throws(e) case None => o)
       case _ => o)
    case _ => o
  }

  /** A message throws exactly when some pair does, and the first such pair decides. */
  lemma {:induction false} FirstErrorExactly(k: Kind, kvs: seq<KeyVal>, stod: Stod)
    ensures FirstError(k, kvs, stod) == None <==> forall i :: 0 <= i < |kvs| ==> Check(k, kvs[i], stod) == None
    ensures forall i :: 0 <= i < |kvs| && Check(k, kvs[i], stod).Some?
              && (forall j :: 0 <= j < i ==> Check(k, kvs[j], stod) == None)
              ==> FirstError(k, kvs, stod) == Check(k, kvs[i], stod)
  {
    hide Check;
    if kvs != [] {
      var init := kvs[..|kvs|-1];
      FirstErrorExactly(k, init, stod);
      assert forall i :: 0 <= i < |init| ==> init[i] == kvs[i];
    }
  }

  lemma ObjectPairThrows(o: Object, kv: KeyVal, stod: Stod)
    ensures AssignObject(o, kv, stod).Some? <==> Check(KObject, kv, stod) == None
  {
    hide IEquals, Stoi, First;
  }

  /** For object messages the exceptions agree with the model that keeps the fields. */
  lemma {:induction false} ObjectThrowsExactly(kvs: seq<KeyVal>, stod: Stod)
    ensures ResolveObject(kvs, stod) == None <==> FirstError(KObject, kvs, stod).Some?
  {
    hide AssignObject, Check;
    if kvs != [] {
      var init, last := kvs[..|kvs|-1], kvs[|kvs|-1];
      ObjectThrowsExactly(init, stod);
      if ResolveObject(init, stod).Some? { ObjectPairThrows(ResolveObject(init, stod).value, last, stod); }
    }
  }

  /** The other kinds keep their pairs. */
  lemma {:induction false} DeferredKeeps(k: Kind, kvs: seq<KeyVal>)
    requires k !in {KFileInfo, KFileStat, KTrack}
    ensures ResolveFields(k, kvs) == Ok(Deferred(kvs))
  {
    hide IEquals, Stoi;
    if kvs != [] {
      DeferredKeeps(k, kvs[..|kvs|-1]);
      assert kvs == kvs[..|kvs|-1] + [kvs[|kvs|-1]];
    }
  }
}
