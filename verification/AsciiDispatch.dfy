/** The branchy recognisers against flat references: message types by name, and the keywords of an
    object message by the last value given to each. */
module AsciiDispatch {
  import opened Text
  import opened AsciiProtocol

  predicate ShadowedType(typ: string) {
    First(typ) in {'A', 'F', 'O', 'R', 'S', 'T'}
  }

  lemma NamesApart(typ: string, j: Kind, k: Kind)
    requires IEquals(typ, NameOf(j)) && IEquals(typ, NameOf(k))
    ensures j == k
  {
    var a, b := NameOf(j), NameOf(k);
    assert |a| == |b| && ToUpper(a[0]) == ToUpper(b[0]) && ToUpper(a[1]) == ToUpper(b[1]) &&
           ToUpper(a[2]) == ToUpper(b[2]);
    assert |a| > 4 ==> ToUpper(a[4]) == ToUpper(b[4]);
  }

  lemma DispatchFound(typ: string, k: Kind)
    requires Dispatch(typ) == Some(k)
    ensures IEquals(typ, NameOf(k)) && !ShadowedType(typ)
  {
    DispatchName(typ, k);
    assert First(typ) == typ[0] && ToUpper(typ[0]) == ToUpper(NameOf(k)[0]);
    hide IEquals;
  }

  lemma DispatchName(typ: string, k: Kind)
    requires Dispatch(typ) == Some(k)
    ensures IEquals(typ, NameOf(k))
  {
    hide IEquals, First;
  }

  lemma DispatchFinds(typ: string, k: Kind)
    requires IEquals(typ, NameOf(k)) && !ShadowedType(typ)
    ensures Dispatch(typ).Some?
  {
    assert ToUpper(First(typ)) == ToUpper(NameOf(k)[0]);
  }

  /** The branch tree is the flat case-insensitive lookup over the 21 names, except that a capital
      A, F, O, R, S or T in front finds nothing. */
  lemma DispatchExactly(typ: string, k: Kind)
    ensures Dispatch(typ) == Some(k) <==> IEquals(typ, NameOf(k)) && !ShadowedType(typ)
  {
    if Dispatch(typ) == Some(k) {
      DispatchFound(typ, k);
    }
    if IEquals(typ, NameOf(k)) && !ShadowedType(typ) {
      DispatchFinds(typ, k);
      DispatchFound(typ, Dispatch(typ).value);
      NamesApart(typ, k, Dispatch(typ).value);
    }
  }

  /* ---------- resolve_object ---------- */

  /** `expdur` is a double: how std::stod reads text is a parameter of the model. */
  datatype RealResult = RealOk(x: real) | RealInvalid | RealRange

  type Stod = string -> RealResult

  datatype Object = Object(plan_type: int, plan_sn: string, objname: string, btime: string,
                           etime: string, imgtype: string, sabbr: string, iimgtyp: int,
                           expdur: real, frmcnt: int)

  const DEFAULT_OBJECT := Object(0, "", "", "", "", "", "", 0, 0.0, -1)

  /** None is a number std::stoi or std::stod throws on. */
  function WithInt(text: string, use: int -> Object): Option<Object> {
    match Stoi(text)
    case IntOk(n) => Some(use(n))
    case _ => None
  }

  function WithReal(stod: Stod, text: string, use: real -> Object): Option<Object> {
    match stod(text)
    case RealOk(x) => Some(use(x))
    case _ => None
  }

  /** The branch tree of resolve_object for one pair. */
  function AssignObject(o: Object, kv: KeyVal, stod: Stod): Option<Object> {
    var ch := First(kv.keyword);
    if IEquals(kv.keyword, "btime") then Some(o.(btime := kv.value))
    else if ch == 'e' then
      if IEquals(kv.keyword, "expdur") then WithReal(stod, kv.value, (x: real) => o.(expdur := x))
      else if IEquals(kv.keyword, "etime") then Some(o.(etime := kv.value))
      else Some(o)
    else if IEquals(kv.keyword, "frmcnt") then WithInt(kv.value, (n: int) => o.(frmcnt := n))
    else if ch == 'i' then
      if IEquals(kv.keyword, "imgtype") then Some(o.(imgtype := kv.value))
      else if IEquals(kv.keyword, "iimgtyp") then WithInt(kv.value, (n: int) => o.(iimgtyp := n))
      else Some(o)
    else if IEquals(kv.keyword, "objname") then Some(o.(objname := kv.value))
    else if ch == 'p' then
      if IEquals(kv.keyword, "plan_sn") then Some(o.(plan_sn := kv.value))
      else if IEquals(kv.keyword, "plan_type") then WithInt(kv.value, (n: int) => o.(plan_type := n))
      else Some(o)
    else if IEquals(kv.keyword, "sabbr") then Some(o.(sabbr := kv.value))
    else Some(o)
  }

  function ResolveObject(kvs: seq<KeyVal>, stod: Stod): Option<Object> {
    if kvs == [] then Some(DEFAULT_OBJECT)
    else
      match ResolveObject(kvs[..|kvs|-1], stod)
      case None => None
      case Some(o) => AssignObject(o, kvs[|kvs|-1], stod)
  }

  /** A pair the tree can see as keyword `name`. */
  predicate Names(kv: KeyVal, name: string) {
    IEquals(kv.keyword, name) && First(kv.keyword) !in {'E', 'I', 'P'}
  }

  /** The flat reference: the last value given to `name`, if any. */
  function LastValue(kvs: seq<KeyVal>, name: string): Option<string> {
    if kvs == [] then None
    else if Names(kvs[|kvs|-1], name) then Some(kvs[|kvs|-1].value)
    else LastValue(kvs[..|kvs|-1], name)
  }

  function TextOf(v: Option<string>): string {
    if v.Some? then v.value else ""
  }

  function IntOf(v: Option<string>, default: int): int {
    if v.Some? && Stoi(v.value).IntOk? then Stoi(v.value).n else default
  }

  function RealOf(v: Option<string>, stod: Stod): real {
    if v.Some? && stod(v.value).RealOk? then stod(v.value).x else 0.0
  }

  function FlatObject(kvs: seq<KeyVal>, stod: Stod): Object {
    Object(IntOf(LastValue(kvs, "plan_type"), 0), TextOf(LastValue(kvs, "plan_sn")),
           TextOf(LastValue(kvs, "objname")), TextOf(LastValue(kvs, "btime")),
           TextOf(LastValue(kvs, "etime")), TextOf(LastValue(kvs, "imgtype")),
           TextOf(LastValue(kvs, "sabbr")), IntOf(LastValue(kvs, "iimgtyp"), 0),
           RealOf(LastValue(kvs, "expdur"), stod), IntOf(LastValue(kvs, "frmcnt"), -1))
  }

  datatype ObjectKey =
    | PlanType | PlanSn | ObjName | BTime | ETime | ImgType | SAbbr | IImgTyp | ExpDur | FrmCnt

  function KeyName(k: ObjectKey): string {
    match k
    case PlanType => "plan_type" case PlanSn => "plan_sn" case ObjName => "objname"
    case BTime => "btime" case ETime => "etime" case ImgType => "imgtype" case SAbbr => "sabbr"
    case IImgTyp => "iimgtyp" case ExpDur => "expdur" case FrmCnt => "frmcnt"
  }

  lemma KeysApart(s: string, j: ObjectKey, k: ObjectKey)
    requires IEquals(s, KeyName(j)) && IEquals(s, KeyName(k))
    ensures j == k
  {
    var a, b := KeyName(j), KeyName(k);
    assert |a| == |b| && ToUpper(a[0]) == ToUpper(b[0]) && ToUpper(a[1]) == ToUpper(b[1]);
  }

  /** The key a pair is seen as, if any. */
  ghost function KeyOf(kv: KeyVal): (r: Option<ObjectKey>)
    ensures r.Some? ==> Names(kv, KeyName(r.value))
    ensures r.None? ==> forall k: ObjectKey :: !Names(kv, KeyName(k))
  {
    if k: ObjectKey :| Names(kv, KeyName(k)) then Some(k) else None
  }

  predicate ReadableAs(k: ObjectKey, v: string, stod: Stod) {
    match k
    case PlanType => Stoi(v).IntOk?
    case IImgTyp => Stoi(v).IntOk?
    case FrmCnt => Stoi(v).IntOk?
    case ExpDur => stod(v).RealOk?
    case _ => true
  }

  /** A numeric pair the tree can see holds a number. */
  ghost predicate Readable(kv: KeyVal, stod: Stod) {
    forall k: ObjectKey :: Names(kv, KeyName(k)) ==> ReadableAs(k, kv.value, stod)
  }

  /** One pair through the tree, by the key it is seen as. */
  function AssignByKey(o: Object, k: ObjectKey, v: string, stod: Stod): Option<Object> {
    match k
    case PlanType => WithInt(v, (n: int) => o.(plan_type := n))
    case PlanSn => Some(o.(plan_sn := v))
    case ObjName => Some(o.(objname := v))
    case BTime => Some(o.(btime := v))
    case ETime => Some(o.(etime := v))
    case ImgType => Some(o.(imgtype := v))
    case SAbbr => Some(o.(sabbr := v))
    case IImgTyp => WithInt(v, (n: int) => o.(iimgtyp := n))
    case ExpDur => WithReal(stod, v, (x: real) => o.(expdur := x))
    case FrmCnt => WithInt(v, (n: int) => o.(frmcnt := n))
  }

  lemma AssignSeen(o: Object, kv: KeyVal, k: ObjectKey, stod: Stod)
    requires Names(kv, KeyName(k))
    ensures AssignObject(o, kv, stod) == AssignByKey(o, k, kv.value, stod)
  {
    var ch := First(kv.keyword);
    assert ToUpper(ch) == ToUpper(KeyName(k)[0]);
    assert ch == 'e' <==> k in {ETime, ExpDur};
    assert ch == 'i' <==> k in {ImgType, IImgTyp};
    assert ch == 'p' <==> k in {PlanType, PlanSn};
    OnlyKey(kv.keyword, k);
    hide IEquals, Stoi, First, ToUpper, KeyName, Names;
  }

  lemma OnlyKey(s: string, k: ObjectKey)
    requires IEquals(s, KeyName(k))
    ensures IEquals(s, "plan_type") <==> k == PlanType
    ensures IEquals(s, "plan_sn") <==> k == PlanSn
    ensures IEquals(s, "objname") <==> k == ObjName
    ensures IEquals(s, "btime") <==> k == BTime
    ensures IEquals(s, "etime") <==> k == ETime
    ensures IEquals(s, "imgtype") <==> k == ImgType
    ensures IEquals(s, "sabbr") <==> k == SAbbr
    ensures IEquals(s, "iimgtyp") <==> k == IImgTyp
    ensures IEquals(s, "expdur") <==> k == ExpDur
    ensures IEquals(s, "frmcnt") <==> k == FrmCnt
  {
    OnlyKeyOfAll(s, k);
    hide IEquals;
    assert KeyName(PlanType) == "plan_type" && KeyName(PlanSn) == "plan_sn" && KeyName(ObjName) == "objname";
    assert KeyName(BTime) == "btime" && KeyName(ETime) == "etime" && KeyName(ImgType) == "imgtype";
    assert KeyName(SAbbr) == "sabbr" && KeyName(IImgTyp) == "iimgtyp" && KeyName(ExpDur) == "expdur";
    assert KeyName(FrmCnt) == "frmcnt";
  }

  lemma OnlyKeyOfAll(s: string, k: ObjectKey)
    requires IEquals(s, KeyName(k))
    ensures forall j: ObjectKey :: IEquals(s, KeyName(j)) <==> j == k
  {
    forall j: ObjectKey ensures IEquals(s, KeyName(j)) <==> j == k {
      if IEquals(s, KeyName(j)) { KeysApart(s, j, k); }
    }
  }

  lemma AssignUnseen(o: Object, kv: KeyVal, stod: Stod)
    requires forall k: ObjectKey :: !Names(kv, KeyName(k))
    ensures AssignObject(o, kv, stod) == Some(o)
  {
    AllNames(kv);
    if First(kv.keyword) in {'E', 'I', 'P'} { CapitalKeywords(kv.keyword); }
    hide IEquals, Stoi;
  }

  lemma AllNames(kv: KeyVal)
    requires forall k: ObjectKey :: !Names(kv, KeyName(k))
    ensures !Names(kv, "plan_type") && !Names(kv, "plan_sn") && !Names(kv, "objname") && !Names(kv, "btime")
    ensures !Names(kv, "etime") && !Names(kv, "imgtype") && !Names(kv, "sabbr") && !Names(kv, "iimgtyp")
    ensures !Names(kv, "expdur") && !Names(kv, "frmcnt")
  {
    hide Names;
    assert KeyName(PlanType) == "plan_type" && KeyName(PlanSn) == "plan_sn" && KeyName(ObjName) == "objname";
    assert KeyName(BTime) == "btime" && KeyName(ETime) == "etime" && KeyName(ImgType) == "imgtype";
    assert KeyName(SAbbr) == "sabbr" && KeyName(IImgTyp) == "iimgtyp" && KeyName(ExpDur) == "expdur";
    assert KeyName(FrmCnt) == "frmcnt";
  }

  lemma CapitalKeywords(s: string)
    requires First(s) in {'E', 'I', 'P'}
    ensures !IEquals(s, "btime") && !IEquals(s, "frmcnt") && !IEquals(s, "objname") && !IEquals(s, "sabbr")
  {
    assert ToUpper(First(s)) == First(s);
    assert ToUpper("btime"[0]) == 'B' && ToUpper("frmcnt"[0]) == 'F';
    assert ToUpper("objname"[0]) == 'O' && ToUpper("sabbr"[0]) == 'S';
  }

  lemma LastValueStep(kvs: seq<KeyVal>, kv: KeyVal, k: ObjectKey)
    ensures LastValue(kvs + [kv], KeyName(k)) ==
            if KeyOf(kv) == Some(k) then Some(kv.value) else LastValue(kvs, KeyName(k))
  {
    assert (kvs + [kv])[..|kvs|] == kvs;
    if Names(kv, KeyName(k)) && KeyOf(kv).Some? { KeysApart(kv.keyword, KeyOf(kv).value, k); }
  }

  function LastValues(kvs: seq<KeyVal>): ObjectKey -> Option<string> {
    (k: ObjectKey) => LastValue(kvs, KeyName(k))
  }

  lemma LastValueSteps(kvs: seq<KeyVal>, kv: KeyVal)
    ensures forall k: ObjectKey :: LastValues(kvs + [kv])(k) ==
              if KeyOf(kv) == Some(k) then Some(kv.value) else LastValues(kvs)(k)
  {
    hide LastValue, KeyName;
    forall k: ObjectKey ensures LastValues(kvs + [kv])(k) ==
              if KeyOf(kv) == Some(k) then Some(kv.value) else LastValues(kvs)(k) {
      LastValueStep(kvs, kv, k);
    }
  }

  function FlatByKey(f: ObjectKey -> Option<string>, stod: Stod): Object {
    Object(IntOf(f(PlanType), 0), TextOf(f(PlanSn)), TextOf(f(ObjName)), TextOf(f(BTime)),
           TextOf(f(ETime)), TextOf(f(ImgType)), TextOf(f(SAbbr)), IntOf(f(IImgTyp), 0),
           RealOf(f(ExpDur), stod), IntOf(f(FrmCnt), -1))
  }

  lemma FlatIsByKey(kvs: seq<KeyVal>, stod: Stod)
    ensures FlatObject(kvs, stod) == FlatByKey(LastValues(kvs), stod)
  {
    hide LastValue, IntOf, TextOf, RealOf;
  }

  lemma FlatSame(f: ObjectKey -> Option<string>, g: ObjectKey -> Option<string>, stod: Stod)
    requires forall k: ObjectKey :: g(k) == f(k)
    ensures FlatByKey(f, stod) == FlatByKey(g, stod)
  {
    hide IntOf, TextOf, RealOf;
  }

  lemma FlatSet(f: ObjectKey -> Option<string>, g: ObjectKey -> Option<string>, k: ObjectKey, v: string, stod: Stod)
    requires forall j: ObjectKey :: g(j) == if j == k then Some(v) else f(j)
    ensures AssignByKey(FlatByKey(f, stod), k, v, stod) ==
            if ReadableAs(k, v, stod) then Some(FlatByKey(g, stod)) else None
  {
    hide Stoi;
  }

  lemma ReadableByKey(kv: KeyVal, stod: Stod)
    ensures Readable(kv, stod) <==> KeyOf(kv).None? || ReadableAs(KeyOf(kv).value, kv.value, stod)
  {
    if KeyOf(kv).Some? { OnlyKeyOfAll(kv.keyword, KeyOf(kv).value); }
    hide IEquals, ReadableAs, KeyName;
  }

  /** One more pair, read flat and taken through the tree. */
  lemma FlatStep(kvs: seq<KeyVal>, kv: KeyVal, stod: Stod)
    ensures AssignObject(FlatObject(kvs, stod), kv, stod) ==
            if Readable(kv, stod) then Some(FlatObject(kvs + [kv], stod)) else None
  {
    hide FlatObject, FlatByKey, LastValues, AssignByKey, AssignObject, ReadableAs, Readable, Names, KeyName;
    FlatIsByKey(kvs, stod);
    FlatIsByKey(kvs + [kv], stod);
    LastValueSteps(kvs, kv);
    ReadableByKey(kv, stod);
    var o, k := FlatObject(kvs, stod), KeyOf(kv);
    if k.Some? {
      FlatSet(LastValues(kvs), LastValues(kvs + [kv]), k.value, kv.value, stod);
      AssignSeen(o, kv, k.value, stod);
    } else {
      FlatSame(LastValues(kvs), LastValues(kvs + [kv]), stod);
      AssignUnseen(o, kv, stod);
    }
  }

  ghost predicate AllReadable(kvs: seq<KeyVal>, stod: Stod) {
    forall i :: 0 <= i < |kvs| ==> Readable(kvs[i], stod)
  }

  lemma AllReadableLast(init: seq<KeyVal>, last: KeyVal, stod: Stod)
    ensures AllReadable(init + [last], stod) <==> AllReadable(init, stod) && Readable(last, stod)
  {
    hide Readable;
    var kvs := init + [last];
    assert forall i :: 0 <= i < |init| ==> kvs[i] == init[i];
    assert kvs[|init|] == last;
  }

  /** resolve_object is the flat last-writer-wins reading of its pairs, deaf to keywords that start
      with a capital E, I or P; it throws exactly when a numeric pair it can see is no number. */
  lemma {:induction false} ObjectIsFlat(kvs: seq<KeyVal>, stod: Stod)
    ensures ResolveObject(kvs, stod) == if AllReadable(kvs, stod) then Some(FlatObject(kvs, stod)) else None
  {
    hide FlatObject, Readable, AssignObject, AllReadable;
    if kvs == [] {
      NothingRead(stod);
    } else {
      var init, last := kvs[..|kvs|-1], kvs[|kvs|-1];
      ObjectIsFlat(init, stod);
      FlatStep(init, last, stod);
      AllReadableLast(init, last, stod);
      assert kvs == init + [last];
    }
  }

  lemma NothingRead(stod: Stod)
    ensures FlatObject([], stod) == DEFAULT_OBJECT && AllReadable([], stod)
  {
  }
}
