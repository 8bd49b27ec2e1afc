# MarketSmith cup-with-handle pattern recognition: a Dafny model

The repository fetches chart patterns from the MarketSmith service and backtests a cup-with-handle
breakout strategy on them. Three parts carry its decisions. This project models those three parts
and proves properties of the model.

- **Date codec** (`values.dfy`, `date_codec.dfy`). MarketSmith writes dates as
  `"/Date(<millis>[-<offset>])/"`. `convert_msdate_to_date` decodes them. It takes the text between
  the first `(` and the first `)`, with Python's `find`, slicing and `split`, and reads the count
  with Python's `int`. The model spells out each of these operations. The request encoder
  `f"/Date({m})/"` is modelled as well, and the round trip between the two is proved.
- **Pattern normaliser** (`pattern_flatten.dfy`, `pattern_model.dfy`, `pattern_filter.dfy`).
  - `filter_cup_with_handles` takes the `cupWithHandles` list of a response and keeps the records
    with `patternType == 1`.
  - It then calls `flattern_pattern_properties`, which pops each record's `properties` list and
    writes each `{Key, Value}` pair into the record in place. This is modelled as a method over an
    array of records, proved equal to a specification function.
  - Each record then becomes a typed `CupWithHandle`. Construction follows pydantic version 1:
    - every declared field is required;
    - the eight date fields first pass through the codec;
    - undeclared keys are ignored;
    - collected errors are reported together, while an exception the codec raises other than
      ValueError escapes.
- **Strategy** (`strategy.dfy`). `CupWithHandleStrategy` is a class holding the entered pattern
  and the log of orders sent to the broker.
  - The engine supplies, as method parameters: the bar's date, the bar's close, the broker's cash
    and the position size.
  - Each per-bar method is proved equal to a pure step function.
  - The lemmas are stated about those step functions.

Representation choices:

- JSON values are a `Value` datatype and records are `map<string, Value>`.
- The exceptions of the date codec, flattening, filtering and construction are the `Exc`
  datatype, carried in a `Result`. The strategy's exceptions are its own `Fault` datatype, carried
  beside the new state in a `Step`.
- Dates are day numbers and prices are `real`.
- The price table is a `map<Day, real>`.

Where the documented behaviour and the code differ, the model follows the code:

- A response without `cupWithHandles` gives `None`, not an empty list.
- A record without `properties` makes flattening raise. The whole batch then fails; the record is
  not treated as having no pairs.
- A negative payload `-<a>-<b>` is read as minus `<a>`, the piece between the first and the
  second `-`.
- A non-string date raises AttributeError and an empty payload raises IndexError. Neither is turned
  into one "invalid date" error, because only TypeError is caught at src/ms/utils.py:27.
- While exposed, every exit check that holds sends its own close order, so one bar can send two
  or three.
- The branch a bar takes is chosen by the broker's position size, not by a state kept in the
  strategy. No entry price is recorded.
- A date string without a `(` is not refused. The slice starts at the beginning of the text. With a
  `)` the payload is the text before it; without one it is the whole text minus its last
  character.
- A property pair keyed `patternType` overwrites the type of a kept cup after selection, so a
  returned record need not have type 1.

## Model

| member | source | states |
|---|---|---|
| Values.Items | src/ms/pattern.py:72-74 | iterating a list visits its items and a string its characters; `null`, numbers and non-empty objects raise TypeError |
| Values.Subscript | src/ms/pattern.py:100 | `v[key]` succeeds exactly on an object holding the key; a missing key is KeyError, any other value TypeError |
| DateCodec.Find | src/ms/utils.py:17 | `find` gives -1 exactly when the character is absent, and otherwise the index of its first occurrence |
| DateCodec.SliceBound | src/ms/utils.py:17 | a slice bound within the text is kept, a negative one counts from the end, one past the end is clamped to the length and one before the start to 0 |
| DateCodec.Split | src/ms/utils.py:19-22 | `split` yields pieces free of the separator that join back to the input; the first piece is the text before the first separator |
| DateCodec.ParseInt | src/ms/utils.py:20-22 | `int` accepts exactly surrounding white space (C-locale ASCII spaces and Unicode non-ASCII spaces), an optional sign and digit groups joined by single underscores |
| DateCodec.ParseIgnoresPadding | src/ms/utils.py:20-22 | white space around a text whose ends are not white space leaves `int`'s result unchanged, value included |
| DateCodec.ParsePadded | src/ms/utils.py:20-22 | unsigned digit groups with white space around parse to the value of their digits |
| DateCodec.ParsePaddedPlus | src/ms/utils.py:20-22 | digit groups led by `+`, with white space around, parse to the value of their digits |
| DateCodec.ParsePaddedMinus | src/ms/utils.py:20-22 | digit groups led by `-`, with white space around, parse to minus the value of their digits |
| DateCodec.SeparatorRefused | src/ms/utils.py:22 | a count led by U+001C is refused by `int`, although `str.strip()` would remove that character |
| DateCodec.IntToString | src/ms/pattern.py:37-38 | `str(m)` is a `-` exactly for a negative number, then the digits of its magnitude without a leading zero |
| DateCodec.ParseIntToString | src/ms/utils.py:20-22 | `int(str(m)) == m` for every integer |
| DateCodec.Payload | src/ms/utils.py:17 | the payload is the text strictly between the first `(` and the first `)`, empty when the `)` does not come after the `(`; without `(` it starts at the beginning; without `)` it stops one character before the end |
| DateCodec.DecodeMillis | src/ms/utils.py:16-23 | an empty payload raises IndexError; every failure is IndexError or ValueError |
| DateCodec.DecodePayload | src/ms/utils.py:19-22 | an empty payload raises IndexError, and no payload raises anything but IndexError or ValueError |
| DateCodec.DecodeNegative | src/ms/utils.py:19-20 | a payload starting with `-` decodes to minus the integer between the first and the second `-`, or ValueError |
| DateCodec.DecodePositive | src/ms/utils.py:21-22 | any other payload decodes to the integer before the first `-`, or ValueError |
| DateCodec.DayOfMillis | src/ms/utils.py:24 | the day is the one whose span of milliseconds holds the instant |
| DateCodec.ConvertMsDate | src/ms/utils.py:4-29 | a non-string raises AttributeError; a string gives the day of its decoded count, or the decoder's error |
| DateCodec.EncodeMsDate | src/ms/pattern.py:37-38 | the encoder's string has exactly `str(m)` as the payload the decoder reads |
| DateCodec.UnparsedPayloadRefused | src/ms/utils.py:17-22 | a date whose payload holds no `-` and is refused by `int` raises ValueError |
| DateCodec.PayloadOfEnvelope | src/ms/pattern.py:37-38 | the payload of `"/Date(" + t + ")/"` is `t` when `t` holds no `)` |
| DateCodec.EncodeDecode | src/ms/utils.py:16-25 | the string the request encoder writes for any count, negative ones included, decodes to that count and to its day |
| DateCodec.EncodeDecodeWithOffset | src/ms/utils.py:17-22 | a `-<offset>` after the count is ignored, for negative counts too |
| DateCodec.PlusOffsetIsRejected | src/ms/utils.py:17-22 | an offset written with `+` is not split off, and the date is refused with ValueError |
| DateCodec.EmptyPayloadRaises | src/ms/utils.py:17-19 | `"/Date()/"` raises IndexError and never yields a default date |
| DateCodec.MissingCloseDropsLastChar | src/ms/utils.py:17 | without a `)`, the payload is the rest of the text minus its last character |
| DateCodec.TimeOfDayDiscarded | src/ms/utils.py:24 | every instant within a day decodes to that day |
| DateCodec.DayOfMillisMonotonic | src/ms/utils.py:24 | later instants never fall on earlier days |
| PatternFlatten.PairOf | src/ms/pattern.py:74 | a pair writes `Key` to `Value` exactly when it is an object with both and a string key; otherwise the KeyError or TypeError Python raises |
| PatternFlatten.Popped | src/ms/pattern.py:71 | popping removes `properties` and leaves every other key's value as it was |
| PatternFlatten.FlattenPatternProperties | src/ms/pattern.py:56-76 | the in-place loops leave the array, and raise the exception, that the specification `Flatten` gives for the original records, including the partial writes before an error |
| PatternFlatten.LastPairIndex | src/ms/pattern.py:72-74 | scanning from the end finds the last well-formed pair with a given key, and no later pair has that key |
| PatternFlatten.WritePairsMerges | src/ms/pattern.py:73-74 | writing the pairs succeeds exactly when all are well formed; then each key holds its last pair's value, or else the record's own field |
| PatternFlatten.FlattenFromSpec | src/ms/pattern.py:72-74 | the outer loop keeps the length, leaves earlier records alone, and succeeds exactly when every later record's pairs write |
| PatternFlatten.Flatten | src/ms/pattern.py:70-76 | flattening keeps length and order; it succeeds exactly when every record has a list of well-formed pairs; then record i holds only its own pairs (last wins, overriding fields) and its other fields unchanged |
| PatternFlatten.PropertiesRemoved | src/ms/pattern.py:70-74 | a flattened record holds `properties` exactly when one of its own pairs writes that key back |
| PatternFlatten.MissingPropertiesAborts | src/ms/pattern.py:70-73 | one record without a `properties` list makes the whole flattening raise |
| PatternModel.Position | src/models/pattern.py:9-39 | every declared field has its place in the declaration order |
| PatternModel.FieldOrderComplete | src/models/pattern.py:9-39 | the declaration order lists every field |
| PatternModel.CheckField | src/models/pattern.py:9-44 | a missing field fails; a date field passes exactly when the codec decodes it and fails on a ValueError; another field fails exactly on `null` |
| PatternModel.FirstRaised | src/models/pattern.py:41-44 | the first field, in declaration order, whose validator raises an escaping exception |
| PatternModel.FailedFields | src/models/pattern.py:9-44 | the fields whose errors are collected are exactly the failing ones |
| PatternModel.FailedFieldsInOrder | src/models/pattern.py:9-44 | the collected fields keep the order in which the fields are validated |
| PatternModel.FieldOrderInOrder | src/models/pattern.py:9-39 | the declaration order lists each field at its own position, so every field appears once |
| PatternModel.ReportedInDeclarationOrder | src/models/pattern.py:9-44 | a ValidationError names its failed fields in declaration order |
| PatternModel.Validate | src/models/pattern.py:9-44 | validation succeeds exactly when every declared field passes |
| PatternModel.BuildFields | src/models/pattern.py:9-44 | a conforming record builds a typed record holding each date's codec day and each other field's value |
| PatternModel.FromRecord | src/models/pattern.py:7-44 | construction succeeds exactly when all fields pass; dates hold the codec's day and other fields the raw value; the first escaping exception wins, otherwise the error names exactly the failed fields |
| PatternModel.MissingFieldFails | src/models/pattern.py:9-39 | a missing declared field makes construction fail |
| PatternModel.MalformedDateFails | src/models/pattern.py:41-44 | a date field the codec rejects makes construction fail |
| PatternModel.NonIntegerDateReported | src/models/pattern.py:41-44 | when no field's validator raises an exception that escapes first, a date whose payload is not an integer is reported by name in the ValidationError |
| PatternModel.UndecodableDateEscapes | src/models/pattern.py:41-44 | a non-string date or one without a payload makes construction raise AttributeError or IndexError itself |
| PatternModel.RaisedIsCodecError | src/models/pattern.py:41-44 | the only exceptions that escape validation are AttributeError and IndexError |
| PatternModel.ExtraKeysIgnored | src/models/pattern.py:7-39 | records that agree on the declared fields construct the same result, whatever other keys they hold |
| PatternFilter.IsType1 | src/ms/pattern.py:100 | the test succeeds exactly on an object with `patternType`, and is true exactly when that value equals 1; without the key it raises KeyError |
| PatternFilter.SelectType1 | src/ms/pattern.py:98-100 | selection succeeds exactly when every cup can be tested, and keeps exactly the cups whose type equals 1 |
| PatternFilter.SelectAppend | src/ms/pattern.py:98-100 | selection distributes over concatenation, so it keeps the input order |
| PatternFilter.SelectOne | src/ms/pattern.py:98-100 | a single cup is kept exactly when its type is 1 |
| PatternFilter.Collect | src/ms/pattern.py:102 | a comprehension whose element may raise returns every value or the first exception, never a partial list |
| PatternFilter.BuildAll | src/ms/pattern.py:102 | the typed list exists exactly when every flattened cup builds, and then holds each cup's typed record at its position |
| PatternFilter.FilterCupWithHandles | src/ms/pattern.py:93-95 | the result is `None` exactly when the response has no `cupWithHandles` or it is `null` |
| PatternFilter.NoCupsGivesNone | src/ms/pattern.py:93-95 | a response without `cupWithHandles` gives `None`, not an empty list |
| PatternFilter.FilterMeaning | src/ms/pattern.py:79-104 | a successful call returns one typed record per kept cup, in order, each built from its flattened cup |
| PatternFilter.BuiltFrom | src/ms/pattern.py:101-102 | a successful call built every flattened kept cup, one to one |
| PatternFilter.CupMeaning | src/ms/pattern.py:101-102 | a typed record holds its flattened cup's dates, through the codec, and its other values |
| PatternFilter.RecordDates | src/ms/pattern.py:101-102 | each date of the typed record is the codec's day for the cup's flattened value |
| PatternFilter.RecordPlain | src/ms/pattern.py:101-102 | each other field of the typed record is the cup's flattened value |
| PatternFilter.KeptType | src/ms/pattern.py:98-102 | a returned record's type equals 1 unless one of its cup's pairs is keyed `patternType` |
| PatternFilter.KeptTypeSurvives | src/ms/pattern.py:98-101 | flattening keeps a kept cup's `patternType` when no pair overrides it |
| PatternFilter.OneBadRecordFails | src/ms/pattern.py:102 | one kept cup that fails construction makes the whole call raise |
| PatternFilter.UntypedCupFails | src/ms/pattern.py:98-100 | a cup without `patternType` makes the whole call raise |
| Strategy.FirstEligibleIndex | src/algo/strategies.py:27-33 | the first pattern, in list order, whose handle low lies 1 to 27 days back; none when no pattern does |
| Strategy.PivotClose | src/algo/strategies.py:22-25 | the close on the pivot date, present exactly when the table has that date |
| Strategy.CupWithHandleStrategy.constructor | src/algo/strategies.py:13-18 | the strategy starts with its patterns and price table, no entered pattern and no orders |
| Strategy.CupWithHandleStrategy.GetPriceAtPivotPrice | src/algo/strategies.py:22-25 | the lookup succeeds exactly when the table has the pivot date, and returns that day's close |
| Strategy.CupWithHandleStrategy.GetRecentPattern | src/algo/strategies.py:27-33 | the loop returns an eligible pattern of the list, the first one, and returns none exactly when no pattern is eligible |
| Strategy.CupWithHandleStrategy.OnNoPosition | src/algo/strategies.py:38-52 | the new state and raised exception are those of the step function for the flat branch |
| Strategy.CupWithHandleStrategy.OnExposed | src/algo/strategies.py:59-78 | the new state and raised exception are those of the step function for the exposed branch |
| Strategy.CupWithHandleStrategy.Next | src/algo/strategies.py:80-84 | the new state and raised exception are those of the per-bar step function, and the entered pattern stays among the patterns |
| Strategy.OnNoPositionSpec | src/algo/strategies.py:38-52 | flat, a bar sends at most one order, a buy of `cash / close` for a non-zero close; it enters only the first eligible pattern; a bar that raises sends nothing, and a ZeroDivisionError arises only from a zero close, with the pattern already entered |
| Strategy.OnExposedSpec | src/algo/strategies.py:59-78 | exposed, a bar keeps the entered pattern; it raises exactly when no pattern was entered or its pivot date has no close, and then changes nothing; otherwise it appends at most three orders, all closes |
| Strategy.NextSpec | src/algo/strategies.py:80-84 | orders only grow; flat, only buys are added; exposed, only closes are added and the entered pattern is kept |
| Strategy.EntryWindowBoundaries | src/algo/strategies.py:32 | offsets 0 and 28 are never eligible, 1 and 27 are, and eligibility is exactly 1 to 27 days |
| Strategy.FlatBuysOnBreakout | src/algo/strategies.py:38-52 | flat, a bar sends an order exactly when an eligible pattern has a known pivot close that the close reaches and the close is not zero; the order is a buy of `cash / close` entering the first eligible pattern |
| Strategy.FlatStaysFlat | src/algo/strategies.py:40-48 | flat, with no eligible pattern or a close below the pivot close, the state stays as it was and nothing is sent |
| Strategy.ZeroCloseRaises | src/algo/strategies.py:44-52 | flat, a zero close reaching a pivot close of zero or less raises ZeroDivisionError with the first eligible pattern entered and no order sent |
| Strategy.MissingPivotFaults | src/algo/strategies.py:22-25 | a pivot date missing from the table makes either branch raise with the state unchanged and no order |
| Strategy.ExitCount | src/algo/strategies.py:63-78 | the number of exit checks that hold on a bar, at most three |
| Strategy.ExposedClosesPerCheck | src/algo/strategies.py:59-78 | exposed, a bar keeps the entered pattern and sends one close per exit check that holds, and nothing else |
| Strategy.AtMostTwoCloses | src/algo/strategies.py:63-70 | with a positive pivot, take profit and stop loss never both hold, so at most two closes are sent |
| Strategy.ThreeClosesForNegativePivot | src/algo/strategies.py:63-78 | with a negative pivot all three checks can hold on one bar |
| Strategy.ExitBoundaries | src/algo/strategies.py:63-76 | the checks are inclusive: 115 and 95 trigger for a pivot of 100 while 114.99 and 95.01 do not; day 28 expires and day 27 does not |
| Strategy.OngoingAmongPatterns | src/algo/strategies.py:49 | the entered pattern is always one of the strategy's patterns |
| Strategy.EntryScenario | src/algo/strategies.py:38-52 | pivot close 100, close 101 nine days after the handle low, cash 1000: the bar buys 1000/101 and enters the pattern |
| Strategy.ExitScenario | src/algo/strategies.py:59-84 | then a close of 96 sends nothing and a close of 94 sends one close order, by the stop loss |

## Left out

- HTTP and authentication: `get_patterns` (src/ms/pattern.py:12-53), src/ms/patterns.py, src/ms/auth.py, src/ms/user.py, src/ms/instrument.py and src/price/ are network calls and file output (src/price/ticker.py and src/price/djia.py write data/tickers.csv). Only the request's date encoding is modelled.
- `store_patterns` (src/ms/pattern.py:107-132) and the CSV load at src/algo/strategies.py:14-15 are file I/O. The price table is a parameter of the strategy's constructor.
- src/ms/controller.py, src/algo/execute.py and src/ms/__init__.py only wire calls together and set up backtrader.
- The backtrader engine: order execution, accounting and the `self.buy`/`self.close` semantics. Orders are recorded in a list, and the bar's date, close, cash and position size are parameters.
- `log`, `log_order` and the print at src/algo/strategies.py:20 are output. The undefined name `patterns` on that line raises NameError in the source and is not modelled.
- The plain record models in src/models/ other than `CupWithHandle` have no logic.
- DayOfMillis: `date.fromtimestamp` uses the local timezone and raises out of the supported year range. The model uses UTC floor division and has no range limit.
- PatternModel.FromRecord: pydantic's coercion and type checks of non-date fields (`int`, `str`, `float`) are not modelled, by FromRecord or by the per-field rule CheckField. Such a field keeps its decoded value, and only `null` is rejected.
- PatternModel.CheckField: the same holds for the per-field rule: a non-date field fails only on `null` or when it is missing.
- ParseInt: `int` also accepts non-ASCII Unicode decimal digits. The model accepts ASCII digits only. It also accepts digit groups of any length, where Python (since 3.11 and the 2022 security releases of 3.7 to 3.10) refuses text of more than 4300 digits; the same holds for ParsePadded, ParsePaddedPlus and ParsePaddedMinus.
- ParseIntToString: proved for every integer. Since Python 3.11, and the 2022 security releases of 3.7 to 3.10, `int` refuses text of more than 4300 digits and `str` refuses to write such a number, so in Python it holds only below that size.
- EncodeDecode, EncodeDecodeWithOffset: for the same reason, the round trip holds in Python only for counts of at most 4300 digits.
- Floating point: prices and the thresholds 1.15 and 0.95 are exact reals, and the buy size is an exact quotient.
- PairOf: a non-string `Key` is reported as TypeError while flattening. In the source a hashable non-string key (a number, a boolean or null) is written, and the record fails later at `CupWithHandle(**cup)` with TypeError. The call as a whole can then raise something else in the source: a KeyError from a later record's pairs, or a ValidationError from an earlier record's construction, where the model raises TypeError.
- Items: iterating a non-empty object visits its string keys, and subscripting those with a string raises TypeError. The model raises that TypeError at once.
- The list `filter_cup_with_handles` builds shares its dicts with the response. The in-place mutation of the response is not visible in the pure model of the filter. The flattening method shows it on its own array.
- The `except TypeError` branch at src/ms/utils.py:27-29 is unreachable for decoded JSON values: a non-string raises AttributeError first, and `int` raises ValueError. It is not modelled.
