/** Selection of the cup-with-handle patterns from a pattern response
    (`filter_cup_with_handles` in src/ms/pattern.py): the cups are taken
    from the response, those with `patternType == 1` are kept, their
    properties are flattened, and each becomes a typed record. */
module PatternFilter {
  import opened Values
  import opened PatternFlatten
  import opened PatternModel
  import opened DateCodec

  const CUPS_KEY: string := "cupWithHandles"
  const PATTERN_TYPE: string := "patternType"

  /** `cup["patternType"] == 1`. */
  function IsType1(cup: Value): (r: Result<bool>)
    ensures r.Ok? <==> cup.Obj? && PATTERN_TYPE in cup.fields
    ensures r.Ok? ==> (r.value <==> EqualsOne(cup.fields[PATTERN_TYPE]))
    ensures cup.Obj? && PATTERN_TYPE !in cup.fields ==> r == Err(KeyError(PATTERN_TYPE))
  {
    match Subscript(cup, PATTERN_TYPE)
    case Err(e) => Err(e)
    case Ok(t) => Ok(EqualsOne(t))
  }

  /** A record the selection keeps. */
  predicate Kept(m: Record) {
    PATTERN_TYPE in m && EqualsOne(m[PATTERN_TYPE])
  }

  /** The list comprehension keeping the cups of type 1; the first cup that
      cannot be tested raises. */
  function SelectType1(cups: seq<Value>): (r: Result<seq<Record>>)
    ensures r.Ok? <==> forall i :: 0 <= i < |cups| ==> IsType1(cups[i]).Ok?
    ensures r.Ok? ==> forall m :: m in r.value <==> Obj(m) in cups && Kept(m)
    ensures r.Ok? ==> |r.value| <= |cups|
    decreases |cups|
  {
    if cups == [] then Ok([])
    else
      match IsType1(cups[0])
      case Err(e) => Err(e)
      case Ok(keep) =>
        match SelectType1(cups[1..])
        case Err(e) => Err(e)
        case Ok(rest) =>
          assert forall i :: 1 <= i < |cups| ==> cups[1..][i - 1] == cups[i];
          Ok((if keep then [cups[0].fields] else []) + rest)
  }

  /** The comprehension is a filter: selecting from a concatenation selects
      from each part in turn and concatenates, so the kept records keep
      their order. */
  lemma {:induction false} SelectAppend(a: seq<Value>, b: seq<Value>)
    ensures SelectType1(a + b) ==
              match SelectType1(a)
              case Err(e) => Err(e)
              case Ok(x) =>
                match SelectType1(b)
                case Err(e) => Err(e)
                case Ok(y) => Ok(x + y)
    decreases |a|
  {
    if a == [] {
      assert a + b == b;
      if SelectType1(b).Ok? {
        assert [] + SelectType1(b).value == SelectType1(b).value;
      }
    } else {
      assert (a + b)[0] == a[0];
      assert (a + b)[1..] == a[1..] + b;
      SelectAppend(a[1..], b);
      if SelectType1(a).Ok? && SelectType1(b).Ok? {
        var head: seq<Record> := if IsType1(a[0]).value then [a[0].fields] else [];
        assert head + (SelectType1(a[1..]).value + SelectType1(b).value)
            == (head + SelectType1(a[1..]).value) + SelectType1(b).value;
      }
    }
  }

  /** One cup is kept exactly when its type is 1. */
  lemma SelectOne(cup: Value)
    ensures SelectType1([cup]) ==
              match IsType1(cup)
              case Err(e) => Err(e)
              case Ok(keep) => Ok(if keep then [cup.fields] else [])
  {
    assert [cup][1..] == [];
    if IsType1(cup).Ok? {
      var head: seq<Record> := if IsType1(cup).value then [cup.fields] else [];
      assert head + [] == head;
    }
  }

  /** The results of a list comprehension whose element expression may
      raise: the first exception escapes and no list is returned. */
  function Collect<T>(results: seq<Result<T>>): (r: Result<seq<T>>)
    ensures r.Ok? <==> forall i :: 0 <= i < |results| ==> results[i].Ok?
    ensures r.Ok? ==> |r.value| == |results| && forall i :: 0 <= i < |results| ==> r.value[i] == results[i].value
    ensures r.Err? ==> exists i :: 0 <= i < |results| && results[i] == Err(r.error)
                                   && forall j :: 0 <= j < i ==> results[j].Ok?
    decreases |results|
  {
    if results == [] then Ok([])
    else
      match results[0]
      case Err(e) => Err(e)
      case Ok(c) =>
        var rest := results[1..];
        assert forall i :: 1 <= i < |results| ==> rest[i - 1] == results[i];
        match Collect(rest)
        case Err(e) =>
          ghost var k :| 0 <= k < |rest| && rest[k] == Err(e) && forall j :: 0 <= j < k ==> rest[j].Ok?;
          assert results[k + 1] == Err(e) && forall j :: 0 <= j < k + 1 ==> results[j].Ok?;
          Err(e)
        case Ok(cs) => Ok([c] + cs)
  }

  /** `[CupWithHandle(**cup) for cup in cup_with_handles]`. */
  function BuildAll(rs: seq<Record>): (r: Result<seq<CupWithHandle>>)
    ensures r.Ok? <==> forall i :: 0 <= i < |rs| ==> FromRecord(rs[i]).Ok?
    ensures r.Ok? ==> |r.value| == |rs| && forall i :: 0 <= i < |rs| ==> FromRecord(rs[i]) == Ok(r.value[i])
  {
    var results := seq(|rs|, i requires 0 <= i < |rs| => FromRecord(rs[i]));
    assert forall i :: 0 <= i < |rs| ==> results[i] == FromRecord(rs[i]);
    Collect(results)
  }

  /** `filter_cup_with_handles(response)`: `None` when the response has no
      cups (the key is absent or `null`), the typed cups of type 1
      otherwise, or the exception a step raises. */
  function FilterCupWithHandles(response: Record): (r: Result<Option<seq<CupWithHandle>>>)
    ensures r == Ok(None) <==> CUPS_KEY !in response || response[CUPS_KEY] == Null
  {
    match Lookup(response, CUPS_KEY)
    case None => Ok(None)
    case Some(v) =>
      if v == Null then Ok(None)
      else
        match Items(v)
        case Err(e) => Err(e)
        case Ok(cups) =>
          match SelectType1(cups)
          case Err(e) => Err(e)
          case Ok(sel) =>
            var (flat, e) := Flatten(sel);
            if e.Some? then Err(e.value)
            else
              match BuildAll(flat)
              case Err(e) => Err(e)
              case Ok(cs) => Ok(Some(cs))
  }

  /** Without a `cupWithHandles` key the result is `None`, not an empty list. */
  lemma NoCupsGivesNone(response: Record)
    requires CUPS_KEY !in response
    ensures FilterCupWithHandles(response) == Ok(None)
  {
  }

  /** The typed record `c` is built from the cup `r`: its dates are the
      codec's days for the cup's flattened values and its other fields are
      the flattened values themselves, a property pair overriding the cup's
      own field. Its `patternType` is the kept value, equal to 1, unless
      one of the cup's property pairs is keyed `patternType`. */
  ghost predicate Describes(r: Record, c: CupWithHandle) {
    && (forall d :: FlattenedLookup(r, DateKey(d)).Some? &&
          ConvertMsDate(FlattenedLookup(r, DateKey(d)).value) == Ok(DateField(c, d)))
    && (forall p :: Some(PlainField(c, p)) == FlattenedLookup(r, PlainKey(p)))
    && (LastPairIndex(PropItems(r), PATTERN_TYPE).None? ==> EqualsOne(c.patternType))
  }

  /** A successful call returns one typed record per kept cup, in order,
      each built from its cup. */
  lemma FilterMeaning(response: Record, cups: seq<Value>, cs: seq<CupWithHandle>)
    requires CUPS_KEY in response && response[CUPS_KEY] == List(cups)
    requires FilterCupWithHandles(response) == Ok(Some(cs))
    ensures SelectType1(cups).Ok?
    ensures |cs| == |SelectType1(cups).value|
    ensures forall i :: 0 <= i < |cs| ==> Describes(SelectType1(cups).value[i], cs[i])
  {
    var sel := SelectType1(cups).value;
    var flat := Flatten(sel).0;
    BuiltFrom(response, cups, cs);
    forall i | 0 <= i < |cs| ensures Describes(sel[i], cs[i]) {
      assert sel[i] in sel;
      CupMeaning(sel[i], flat[i], cs[i]);
    }
  }

  lemma BuiltFrom(response: Record, cups: seq<Value>, cs: seq<CupWithHandle>)
    requires CUPS_KEY in response && response[CUPS_KEY] == List(cups)
    requires FilterCupWithHandles(response) == Ok(Some(cs))
    ensures SelectType1(cups).Ok? && Flatten(SelectType1(cups).value).1.None?
    ensures var flat := Flatten(SelectType1(cups).value).0;
            |cs| == |flat| && forall i :: 0 <= i < |flat| ==> FromRecord(flat[i]) == Ok(cs[i])
  {
    var flat := Flatten(SelectType1(cups).value).0;
    assert BuildAll(flat).Ok?;
  }

  lemma CupMeaning(r: Record, flat: Record, c: CupWithHandle)
    requires Kept(r)
    requires forall k :: Lookup(flat, k) == FlattenedLookup(r, k)
    requires FromRecord(flat) == Ok(c)
    ensures Describes(r, c)
  {
    RecordDates(r, flat, c);
    RecordPlain(r, flat, c);
    PatternTypeKey();
    assert Some(PlainField(c, PatternType)) == FlattenedLookup(r, PlainKey(PatternType));
    KeptType(r, c);
  }

  lemma PatternTypeKey()
    ensures PlainKey(PatternType) == PATTERN_TYPE
  {
  }

  /** A kept cup whose type no property pair overrides keeps a type equal
      to 1. */
  lemma KeptType(r: Record, c: CupWithHandle)
    requires Kept(r)
    requires Some(c.patternType) == FlattenedLookup(r, PATTERN_TYPE)
    ensures LastPairIndex(PropItems(r), PATTERN_TYPE).None? ==> EqualsOne(c.patternType)
  {
    if LastPairIndex(PropItems(r), PATTERN_TYPE).None? {
      KeptTypeSurvives(r);
    }
  }

  /** The dates of cup `r`, flattened to `flat` and built into `c`. */
  lemma RecordDates(r: Record, flat: Record, c: CupWithHandle)
    requires forall k :: Lookup(flat, k) == FlattenedLookup(r, k)
    requires FromRecord(flat) == Ok(c)
    ensures forall d :: FlattenedLookup(r, DateKey(d)).Some? &&
              ConvertMsDate(FlattenedLookup(r, DateKey(d)).value) == Ok(DateField(c, d))
  {
    forall d ensures FlattenedLookup(r, DateKey(d)).Some? &&
              ConvertMsDate(FlattenedLookup(r, DateKey(d)).value) == Ok(DateField(c, d))
    {
      var k := DateKey(d);
      assert Lookup(flat, k) == FlattenedLookup(r, k);
    }
  }

  /** The other fields of cup `r`, flattened to `flat` and built into `c`. */
  lemma RecordPlain(r: Record, flat: Record, c: CupWithHandle)
    requires forall k :: Lookup(flat, k) == FlattenedLookup(r, k)
    requires FromRecord(flat) == Ok(c)
    ensures forall p :: Some(PlainField(c, p)) == FlattenedLookup(r, PlainKey(p))
  {
    forall p ensures Some(PlainField(c, p)) == FlattenedLookup(r, PlainKey(p)) {
      var k := PlainKey(p);
      assert Lookup(flat, k) == FlattenedLookup(r, k);
    }
  }

  /** Without a pair keyed `patternType`, flattening keeps the cup's type. */
  lemma KeptTypeSurvives(r: Record)
    requires Kept(r) && LastPairIndex(PropItems(r), PATTERN_TYPE).None?
    ensures FlattenedLookup(r, PATTERN_TYPE) == Some(r[PATTERN_TYPE])
  {
    assert PATTERN_TYPE != PROPERTIES;
    assert Lookup(Popped(r), PATTERN_TYPE) == Some(r[PATTERN_TYPE]);
  }

  /** A single kept cup that fails typed construction makes the whole call
      raise, so no partial list is returned. */
  lemma OneBadRecordFails(response: Record, cups: seq<Value>, i: nat)
    requires CUPS_KEY in response && response[CUPS_KEY] == List(cups)
    requires SelectType1(cups).Ok? && Flatten(SelectType1(cups).value).1.None?
    requires i < |SelectType1(cups).value|
    requires FromRecord(Flatten(SelectType1(cups).value).0[i]).Err?
    ensures FilterCupWithHandles(response).Err?
  {
    var flat := Flatten(SelectType1(cups).value).0;
    assert BuildAll(flat).Err?;
  }

  /** A cup without a `patternType` makes the call raise. */
  lemma UntypedCupFails(response: Record, cups: seq<Value>, i: nat)
    requires CUPS_KEY in response && response[CUPS_KEY] == List(cups)
    requires i < |cups| && cups[i].Obj? && PATTERN_TYPE !in cups[i].fields
    ensures FilterCupWithHandles(response).Err?
  {
    assert !IsType1(cups[i]).Ok?;
  }
}
