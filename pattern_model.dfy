/** The typed cup-with-handle record (`CupWithHandle` in
    src/models/pattern.py) and its construction from a flattened record,
    as pydantic (version 1) builds it: every declared field is required,
    the eight date fields first go through the date codec, undeclared keys
    are ignored, and the failures are reported together. */
module PatternModel {
  import opened Values
  import opened DateCodec

  /** The record's 31 fields in declaration order. Dates are day numbers;
      the other fields keep the decoded value they were given. */
  datatype CupWithHandle = CupWithHandle(
    baseID: Value,
    baseStartDate: Day,
    baseEndDate: Day,
    baseNumber: Value,
    baseStage: Value,
    baseStatus: Value,
    pivotPriceDate: Day,
    baseLength: Value,
    periodicity: Value,
    versionID: Value,
    leftSideHighDate: Day,
    patternType: Value,
    firstBottomDate: Day,
    handleLowDate: Day,
    handleStartDate: Day,
    cupEndDate: Day,
    UpBars: Value,
    BlueBars: Value,
    StallBars: Value,
    UpVolumeTotal: Value,
    DownBars: Value,
    RedBars: Value,
    SupportBars: Value,
    DownVolumeTotal: Value,
    BaseDepth: Value,
    AvgVolumeRatePctOnPivot: Value,
    VolumePctChangeOnPivot: Value,
    PricePctChangeOnPivot: Value,
    HandleDepth: Value,
    HandleLength: Value,
    CupLength: Value)

  /** The names of the eight date fields. */
  datatype DateName =
    | BaseStartDate | BaseEndDate | PivotPriceDate | LeftSideHighDate
    | FirstBottomDate | HandleLowDate | HandleStartDate | CupEndDate

  /** The names of the other 23 fields. */
  datatype PlainName =
    | BaseID | BaseNumber | BaseStage | BaseStatus | BaseLength | Periodicity
    | VersionID | PatternType | UpBars | BlueBars | StallBars | UpVolumeTotal
    | DownBars | RedBars | SupportBars | DownVolumeTotal | BaseDepth
    | AvgVolumeRatePctOnPivot | VolumePctChangeOnPivot | PricePctChangeOnPivot
    | HandleDepth | HandleLength | CupLength

  /** A declared field; `validate_date` is attached to the date ones. */
  datatype Field = Date(d: DateName) | Plain(p: PlainName)

  /** The key a field is read from. */
  function DateKey(d: DateName): string {
    match d
    case BaseStartDate => "baseStartDate"
    case BaseEndDate => "baseEndDate"
    case PivotPriceDate => "pivotPriceDate"
    case LeftSideHighDate => "leftSideHighDate"
    case FirstBottomDate => "firstBottomDate"
    case HandleLowDate => "handleLowDate"
    case HandleStartDate => "handleStartDate"
    case CupEndDate => "cupEndDate"
  }

  function PlainKey(p: PlainName): string {
    match p
    case BaseID => "baseID"
    case BaseNumber => "baseNumber"
    case BaseStage => "baseStage"
    case BaseStatus => "baseStatus"
    case BaseLength => "baseLength"
    case Periodicity => "periodicity"
    case VersionID => "versionID"
    case PatternType => "patternType"
    case UpBars => "UpBars"
    case BlueBars => "BlueBars"
    case StallBars => "StallBars"
    case UpVolumeTotal => "UpVolumeTotal"
    case DownBars => "DownBars"
    case RedBars => "RedBars"
    case SupportBars => "SupportBars"
    case DownVolumeTotal => "DownVolumeTotal"
    case BaseDepth => "BaseDepth"
    case AvgVolumeRatePctOnPivot => "AvgVolumeRatePctOnPivot"
    case VolumePctChangeOnPivot => "VolumePctChangeOnPivot"
    case PricePctChangeOnPivot => "PricePctChangeOnPivot"
    case HandleDepth => "HandleDepth"
    case HandleLength => "HandleLength"
    case CupLength => "CupLength"
  }

  function Key(f: Field): string {
    match f
    case Date(d) => DateKey(d)
    case Plain(p) => PlainKey(p)
  }

  /** The fields in declaration order, the order pydantic validates them in. */
  const FieldOrder: seq<Field> := [
    Plain(BaseID), Date(BaseStartDate), Date(BaseEndDate), Plain(BaseNumber),
    Plain(BaseStage), Plain(BaseStatus), Date(PivotPriceDate), Plain(BaseLength),
    Plain(Periodicity), Plain(VersionID), Date(LeftSideHighDate), Plain(PatternType),
    Date(FirstBottomDate), Date(HandleLowDate), Date(HandleStartDate), Date(CupEndDate),
    Plain(UpBars), Plain(BlueBars), Plain(StallBars), Plain(UpVolumeTotal),
    Plain(DownBars), Plain(RedBars), Plain(SupportBars), Plain(DownVolumeTotal),
    Plain(BaseDepth), Plain(AvgVolumeRatePctOnPivot), Plain(VolumePctChangeOnPivot),
    Plain(PricePctChangeOnPivot), Plain(HandleDepth), Plain(HandleLength), Plain(CupLength)]

  /** Where a field stands in the declaration. */
  function Position(f: Field): (i: nat)
    ensures i < |FieldOrder| && FieldOrder[i] == f
  {
    match f
    case Plain(BaseID) => 0
    case Date(BaseStartDate) => 1
    case Date(BaseEndDate) => 2
    case Plain(BaseNumber) => 3
    case Plain(BaseStage) => 4
    case Plain(BaseStatus) => 5
    case Date(PivotPriceDate) => 6
    case Plain(BaseLength) => 7
    case Plain(Periodicity) => 8
    case Plain(VersionID) => 9
    case Date(LeftSideHighDate) => 10
    case Plain(PatternType) => 11
    case Date(FirstBottomDate) => 12
    case Date(HandleLowDate) => 13
    case Date(HandleStartDate) => 14
    case Date(CupEndDate) => 15
    case Plain(UpBars) => 16
    case Plain(BlueBars) => 17
    case Plain(StallBars) => 18
    case Plain(UpVolumeTotal) => 19
    case Plain(DownBars) => 20
    case Plain(RedBars) => 21
    case Plain(SupportBars) => 22
    case Plain(DownVolumeTotal) => 23
    case Plain(BaseDepth) => 24
    case Plain(AvgVolumeRatePctOnPivot) => 25
    case Plain(VolumePctChangeOnPivot) => 26
    case Plain(PricePctChangeOnPivot) => 27
    case Plain(HandleDepth) => 28
    case Plain(HandleLength) => 29
    case Plain(CupLength) => 30
  }

  lemma FieldOrderComplete(f: Field)
    ensures f in FieldOrder
  {
    assert FieldOrder[Position(f)] == f;
  }

  /** The outcome of validating one field: accepted, an error pydantic
      collects, or an exception that escapes validation. */
  datatype Check = Passed | Failed | Raised(e: Exc)

  /** One field. A missing field is a collected error. A date field is
      decoded by the codec before any type check; pydantic collects a
      ValueError from the validator, while the AttributeError and IndexError
      the codec can raise escape. Any other declared field rejects `null`. */
  function CheckField(r: Record, f: Field): (c: Check)
    ensures Key(f) !in r ==> c == Failed
    ensures Key(f) in r && f.Date? ==>
              (c == Passed <==> ConvertMsDate(r[Key(f)]).Ok?)
              && (c == Failed <==> ConvertMsDate(r[Key(f)]) == Err(ValueError))
    ensures Key(f) in r && f.Plain? ==> (c == Passed <==> r[Key(f)] != Null) && !c.Raised?
  {
    var k := Key(f);
    if k !in r then Failed
    else if f.Date? then
      match ConvertMsDate(r[k])
      case Ok(_) => Passed
      case Err(ValueError) => Failed
      case Err(e) => Raised(e)
    else if r[k] == Null then Failed
    else Passed
  }

  /** The position of the first field whose validation raises. */
  function FirstRaised(r: Record, fs: seq<Field>): (i: Option<nat>)
    ensures i.Some? ==> i.value < |fs| && CheckField(r, fs[i.value]).Raised?
                        && forall j :: 0 <= j < i.value ==> !CheckField(r, fs[j]).Raised?
    ensures i.None? ==> forall j :: 0 <= j < |fs| ==> !CheckField(r, fs[j]).Raised?
  {
    if fs == [] then None
    else if CheckField(r, fs[0]).Raised? then Some(0)
    else match FirstRaised(r, fs[1..])
         case Some(j) => Some(j + 1)
         case None => None
  }

  /** The fields stand in the order of their declaration. */
  predicate InDeclarationOrder(fs: seq<Field>) {
    forall i, j :: 0 <= i < j < |fs| ==> Position(fs[i]) < Position(fs[j])
  }

  /** The declaration order is in declaration order. */
  lemma FieldOrderInOrder()
    ensures InDeclarationOrder(FieldOrder)
  {
    forall i | 0 <= i < |FieldOrder| ensures Position(FieldOrder[i]) == i {
      FieldOrderDistinct(i, Position(FieldOrder[i]));
    }
  }

  lemma FieldOrderDistinct(i: nat, j: nat)
    requires i < |FieldOrder| && j < |FieldOrder| && FieldOrder[i] == FieldOrder[j]
    ensures i == j
  {
  }

  /** The fields whose errors are collected, in order. */
  function FailedFields(r: Record, fs: seq<Field>): (out: seq<Field>)
    ensures forall f :: f in out <==> f in fs && CheckField(r, f).Failed?
    ensures |out| <= |fs|
  {
    if fs == [] then []
    else (if CheckField(r, fs[0]).Failed? then [fs[0]] else []) + FailedFields(r, fs[1..])
  }

  /** The collected fields keep the order they are validated in. */
  lemma {:induction false} FailedFieldsInOrder(r: Record, fs: seq<Field>)
    requires InDeclarationOrder(fs)
    ensures InDeclarationOrder(FailedFields(r, fs))
    decreases |fs|
  {
    if fs != [] {
      var rest := FailedFields(r, fs[1..]);
      TailInOrder(fs);
      FailedFieldsInOrder(r, fs[1..]);
      if CheckField(r, fs[0]).Failed? {
        assert FailedFields(r, fs) == [fs[0]] + rest;
        ConsInOrder(fs[0], rest, fs[1..]);
      } else {
        assert FailedFields(r, fs) == [] + rest;
      }
    }
  }

  lemma TailInOrder(fs: seq<Field>)
    requires fs != [] && InDeclarationOrder(fs)
    ensures InDeclarationOrder(fs[1..])
    ensures forall g :: g in fs[1..] ==> Position(fs[0]) < Position(g)
  {
    var tail := fs[1..];
    forall i, j | 0 <= i < j < |tail| ensures Position(tail[i]) < Position(tail[j]) {
      assert tail[i] == fs[i + 1] && tail[j] == fs[j + 1];
    }
    forall g | g in tail ensures Position(fs[0]) < Position(g) {
      var k :| 0 <= k < |tail| && tail[k] == g;
      assert tail[k] == fs[k + 1];
    }
  }

  lemma ConsInOrder(f: Field, rest: seq<Field>, tail: seq<Field>)
    requires InDeclarationOrder(rest)
    requires forall g :: g in rest ==> g in tail
    requires forall g :: g in tail ==> Position(f) < Position(g)
    ensures InDeclarationOrder([f] + rest)
  {
    var out := [f] + rest;
    forall i, j | 0 <= i < j < |out| ensures Position(out[i]) < Position(out[j]) {
      assert out[j] == rest[j - 1] && rest[j - 1] in rest;
      if i > 0 {
        assert out[i] == rest[i - 1];
      }
    }
  }

  /** A ValidationError lists the failed fields in declaration order. */
  lemma ReportedInDeclarationOrder(r: Record)
    ensures InDeclarationOrder(FailedFields(r, FieldOrder))
  {
    FieldOrderInOrder();
    FailedFieldsInOrder(r, FieldOrder);
  }

  function Keys(fs: seq<Field>): seq<string> {
    seq(|fs|, i requires 0 <= i < |fs| => Key(fs[i]))
  }

  /** pydantic's field loop. Validation walks the fields in order and stops
      at the first escaping exception; otherwise the collected errors become
      one ValidationError. */
  function Validate(r: Record): (v: Result<()>)
    ensures v.Ok? <==> Conforms(r)
  {
    ChecksPass(r);
    match FirstRaised(r, FieldOrder)
    case Some(i) => Err(CheckField(r, FieldOrder[i]).e)
    case None =>
      var failed := FailedFields(r, FieldOrder);
      if failed == [] then Ok(()) else Err(ValidationError(Keys(failed)))
  }

  /** Every declared field validates. */
  predicate Conforms(r: Record) {
    forall f :: f in FieldOrder ==> CheckField(r, f) == Passed
  }

  /** The raw value of a field, `null` when it is missing. */
  function Raw(r: Record, p: PlainName): Value {
    if PlainKey(p) in r then r[PlainKey(p)] else Null
  }

  /** The decoded day of a date field, 0 when it does not decode. */
  function DayOf(r: Record, d: DateName): Day {
    var k := DateKey(d);
    if k in r && ConvertMsDate(r[k]).Ok? then ConvertMsDate(r[k]).value else 0
  }

  /** The typed record whose fields take the given values. */
  function Build(day: DateName -> Day, raw: PlainName -> Value): CupWithHandle {
    CupWithHandle(
      raw(BaseID), day(BaseStartDate), day(BaseEndDate),
      raw(BaseNumber), raw(BaseStage), raw(BaseStatus),
      day(PivotPriceDate), raw(BaseLength), raw(Periodicity),
      raw(VersionID), day(LeftSideHighDate), raw(PatternType),
      day(FirstBottomDate), day(HandleLowDate),
      day(HandleStartDate), day(CupEndDate),
      raw(UpBars), raw(BlueBars), raw(StallBars),
      raw(UpVolumeTotal), raw(DownBars), raw(RedBars),
      raw(SupportBars), raw(DownVolumeTotal), raw(BaseDepth),
      raw(AvgVolumeRatePctOnPivot), raw(VolumePctChangeOnPivot),
      raw(PricePctChangeOnPivot), raw(HandleDepth),
      raw(HandleLength), raw(CupLength))
  }

  /** A typed record's date field, by name. */
  function DateField(c: CupWithHandle, d: DateName): Day {
    match d
    case BaseStartDate => c.baseStartDate
    case BaseEndDate => c.baseEndDate
    case PivotPriceDate => c.pivotPriceDate
    case LeftSideHighDate => c.leftSideHighDate
    case FirstBottomDate => c.firstBottomDate
    case HandleLowDate => c.handleLowDate
    case HandleStartDate => c.handleStartDate
    case CupEndDate => c.cupEndDate
  }

  /** A typed record's other fields, by name. */
  function PlainField(c: CupWithHandle, p: PlainName): Value {
    match p
    case BaseID => c.baseID
    case BaseNumber => c.baseNumber
    case BaseStage => c.baseStage
    case BaseStatus => c.baseStatus
    case BaseLength => c.baseLength
    case Periodicity => c.periodicity
    case VersionID => c.versionID
    case PatternType => c.patternType
    case UpBars => c.UpBars
    case BlueBars => c.BlueBars
    case StallBars => c.StallBars
    case UpVolumeTotal => c.UpVolumeTotal
    case DownBars => c.DownBars
    case RedBars => c.RedBars
    case SupportBars => c.SupportBars
    case DownVolumeTotal => c.DownVolumeTotal
    case BaseDepth => c.BaseDepth
    case AvgVolumeRatePctOnPivot => c.AvgVolumeRatePctOnPivot
    case VolumePctChangeOnPivot => c.VolumePctChangeOnPivot
    case PricePctChangeOnPivot => c.PricePctChangeOnPivot
    case HandleDepth => c.HandleDepth
    case HandleLength => c.HandleLength
    case CupLength => c.CupLength
  }

  /** `CupWithHandle(**r)`. It succeeds exactly when every declared field
      validates; then each date field holds the codec's day for the raw
      value and every other field holds the raw value. On failure, the
      first escaping exception wins, and otherwise the error lists exactly
      the failed fields, in declaration order. */
  function FromRecord(r: Record): (c: Result<CupWithHandle>)
    ensures c.Ok? <==> Conforms(r)
    ensures c.Ok? ==> forall d :: DateKey(d) in r && ConvertMsDate(r[DateKey(d)]) == Ok(DateField(c.value, d))
    ensures c.Ok? ==> forall p :: PlainKey(p) in r && PlainField(c.value, p) == r[PlainKey(p)]
    ensures c.Err? && FirstRaised(r, FieldOrder).Some? ==>
              c.error == CheckField(r, FieldOrder[FirstRaised(r, FieldOrder).value]).e
    ensures c.Err? && FirstRaised(r, FieldOrder).None? ==>
              c.error == ValidationError(Keys(FailedFields(r, FieldOrder)))
              && FailedFields(r, FieldOrder) != []
  {
    match Validate(r)
    case Err(e) => Err(e)
    case Ok(_) =>
      BuildFields(r);
      Ok(Build(d => DayOf(r, d), p => Raw(r, p)))
  }

  /** No field raises and none fails exactly when every field passes. */
  lemma ChecksPass(r: Record)
    ensures FirstRaised(r, FieldOrder).None? && FailedFields(r, FieldOrder) == [] <==> Conforms(r)
  {
    var fs := FieldOrder;
    var raised := FirstRaised(r, fs);
    var failed := FailedFields(r, fs);
    if raised.Some? {
      assert fs[raised.value] in fs && !Conforms(r);
    } else if failed != [] {
      assert failed[0] in failed && !Conforms(r);
    } else {
      forall f | f in fs ensures CheckField(r, f) == Passed {
        var j :| 0 <= j < |fs| && fs[j] == f;
        assert !CheckField(r, fs[j]).Raised? && f !in failed;
      }
    }
  }

  lemma BuildFields(r: Record)
    requires Conforms(r)
    ensures forall d :: DateKey(d) in r && ConvertMsDate(r[DateKey(d)]) == Ok(DateField(Build(d => DayOf(r, d), p => Raw(r, p)), d))
    ensures forall p :: PlainKey(p) in r && PlainField(Build(d => DayOf(r, d), p => Raw(r, p)), p) == r[PlainKey(p)]
  {
    BuildDates(d => DayOf(r, d), p => Raw(r, p));
    BuildPlain(d => DayOf(r, d), p => Raw(r, p));
    forall d ensures DateKey(d) in r && ConvertMsDate(r[DateKey(d)]) == Ok(DayOf(r, d)) {
      FieldOrderComplete(Date(d));
      assert CheckField(r, Date(d)) == Passed;
    }
    forall p ensures PlainKey(p) in r {
      FieldOrderComplete(Plain(p));
      assert CheckField(r, Plain(p)) == Passed;
    }
  }

  lemma BuildDates(day: DateName -> Day, raw: PlainName -> Value)
    ensures forall d :: DateField(Build(day, raw), d) == day(d)
  {
  }

  lemma BuildPlain(day: DateName -> Day, raw: PlainName -> Value)
    ensures forall p :: PlainField(Build(day, raw), p) == raw(p)
  {
    var c := Build(day, raw);
    forall p ensures PlainField(c, p) == raw(p) {
      match p
      case BaseID =>
      case BaseNumber =>
      case BaseStage =>
      case BaseStatus =>
      case BaseLength =>
      case Periodicity =>
      case VersionID =>
      case PatternType =>
      case UpBars =>
      case BlueBars =>
      case StallBars =>
      case UpVolumeTotal =>
      case DownBars =>
      case RedBars =>
      case SupportBars =>
      case DownVolumeTotal =>
      case BaseDepth =>
      case AvgVolumeRatePctOnPivot =>
      case VolumePctChangeOnPivot =>
      case PricePctChangeOnPivot =>
      case HandleDepth =>
      case HandleLength =>
      case CupLength =>
    }
  }

  /** A missing declared field makes construction fail. */
  lemma MissingFieldFails(r: Record, f: Field)
    requires Key(f) !in r
    ensures FromRecord(r).Err?
  {
    FieldOrderComplete(f);
    assert CheckField(r, f) == Failed;
  }

  /** A date field the codec rejects makes construction fail. */
  lemma MalformedDateFails(r: Record, d: DateName)
    requires DateKey(d) in r && ConvertMsDate(r[DateKey(d)]).Err?
    ensures FromRecord(r).Err?
  {
    FieldOrderComplete(Date(d));
    assert CheckField(r, Date(d)) != Passed;
  }

  /** A date payload that is not an integer (a ValueError) is reported by
      field name, unless an exception escapes from another field first. */
  lemma NonIntegerDateReported(r: Record, d: DateName)
    requires DateKey(d) in r && ConvertMsDate(r[DateKey(d)]) == Err(ValueError)
    requires FirstRaised(r, FieldOrder).None?
    ensures FromRecord(r).Err? && FromRecord(r).error.ValidationError?
    ensures DateKey(d) in FromRecord(r).error.fields
  {
    var f := Date(d);
    FieldOrderComplete(f);
    var failed := FailedFields(r, FieldOrder);
    assert f in failed;
    var j :| 0 <= j < |failed| && failed[j] == f;
    assert Keys(failed)[j] == DateKey(d);
  }

  /** A date value that is not a string (an AttributeError) or a string
      without a payload (an IndexError) escapes validation: construction
      raises that exception itself, or the same kind of exception from an
      earlier date field, and no field is reported by name. */
  lemma UndecodableDateEscapes(r: Record, d: DateName)
    requires DateKey(d) in r && ConvertMsDate(r[DateKey(d)]).Err?
    requires ConvertMsDate(r[DateKey(d)]) != Err(ValueError)
    ensures FromRecord(r).Err?
    ensures FromRecord(r).error == AttributeError || FromRecord(r).error == IndexError
  {
    var f := Date(d);
    var j := Position(f);
    assert CheckField(r, FieldOrder[j]).Raised?;
    var i := FirstRaised(r, FieldOrder).value;
    RaisedIsCodecError(r, FieldOrder[i]);
  }

  lemma RaisedIsCodecError(r: Record, f: Field)
    requires CheckField(r, f).Raised?
    ensures CheckField(r, f).e == AttributeError || CheckField(r, f).e == IndexError
  {
    var v := r[Key(f)];
    if v.Str? {
      assert DecodeMillis(v.s).error == IndexError;
    }
  }

  /** Only the declared fields matter: keys the record does not declare,
      such as unknown flattened property keys, never reach it. */
  lemma ExtraKeysIgnored(r: Record, s: Record)
    requires forall f :: Lookup(r, Key(f)) == Lookup(s, Key(f))
    ensures FromRecord(r) == FromRecord(s)
  {
    forall f ensures CheckField(r, f) == CheckField(s, f) {
      assert Lookup(r, Key(f)) == Lookup(s, Key(f));
    }
    forall p ensures Raw(r, p) == Raw(s, p) {
      assert Lookup(r, Key(Plain(p))) == Lookup(s, Key(Plain(p)));
    }
    forall d ensures DayOf(r, d) == DayOf(s, d) {
      assert Lookup(r, Key(Date(d))) == Lookup(s, Key(Date(d)));
    }
    SameChecks(r, s, FieldOrder);
  }

  lemma {:induction false} SameChecks(r: Record, s: Record, fs: seq<Field>)
    requires forall f :: CheckField(r, f) == CheckField(s, f)
    ensures FirstRaised(r, fs) == FirstRaised(s, fs)
    ensures FailedFields(r, fs) == FailedFields(s, fs)
  {
    if fs != [] {
      SameChecks(r, s, fs[1..]);
    }
  }
}
