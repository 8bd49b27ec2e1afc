/** The provider's date codec: strings shaped like
    "/Date(1536303600000-0700)/" carry a signed count of milliseconds since
    the epoch, optionally followed by a timezone offset. The decoder is
    src/ms/utils.py; the encoder is the f-string that builds the request's
    date bounds in src/ms/pattern.py. */
module DateCodec {
  import opened Values

  /** A calendar date, as a count of days since 1970-01-01. */
  type Day = int

  const MILLIS_PER_DAY: int := 86_400_000

  // ---------------------------------------------------------------------
  // Python string primitives
  // ---------------------------------------------------------------------

  /** `s.find(c)`: the index of the first `c`, or -1. */
  function Find(s: string, c: char): (r: int)
    ensures -1 <= r < |s|
    ensures r == -1 <==> c !in s
    ensures 0 <= r ==> s[r] == c && c !in s[..r]
  {
    if |s| == 0 then -1
    else if s[0] == c then 0
    else
      var k := Find(s[1..], c);
      if k == -1 then -1
      else
        assert s[..k + 1] == [s[0]] + s[1..][..k];
        k + 1
  }

  /** Searching a concatenation whose first part lacks `c` searches the
      second part. */
  lemma {:induction false} FindAfter(a: string, b: string, c: char)
    requires c !in a
    ensures Find(a + b, c) == if c in b then |a| + Find(b, c) else -1
  {
    if a != [] {
      assert (a + b)[1..] == a[1..] + b;
      FindAfter(a[1..], b, c);
    } else {
      assert a + b == b;
    }
  }

  /** Searching a concatenation whose first part holds `c` stops in it. */
  lemma {:induction false} FindWithin(a: string, b: string, c: char)
    requires c in a
    ensures Find(a + b, c) == Find(a, c)
  {
    if a[0] != c {
      assert (a + b)[1..] == a[1..] + b;
      assert c in a[1..] by { assert a == [a[0]] + a[1..]; }
      FindWithin(a[1..], b, c);
    }
  }

  /** One bound of a Python slice: a negative bound counts from the end,
      and the result is clamped to the string. */
  function SliceBound(n: nat, b: int): (r: nat)
    ensures r <= n
    ensures 0 <= b <= n ==> r == b
    ensures -(n as int) <= b < 0 ==> r as int == n as int + b
    ensures b > n ==> r == n
    ensures b < -(n as int) ==> r == 0
  {
    var c: int := if b < 0 then n + b else b;
    if c < 0 then 0 else if c > n then n else c
  }

  /** `s[start:stop]`. */
  function Slice(s: string, start: int, stop: int): string {
    var a, b := SliceBound(|s|, start), SliceBound(|s|, stop);
    if a < b then s[a..b] else []
  }

  /** Concatenates the parts with `sep` between consecutive ones. */
  function Join(parts: seq<string>, sep: char): string
    requires |parts| >= 1
  {
    if |parts| == 1 then parts[0] else parts[0] + [sep] + Join(parts[1..], sep)
  }

  /** `s.split(sep)` for a one-character separator: the maximal pieces that
      do not contain `sep`, which joined back with `sep` give `s`. */
  function Split(s: string, sep: char): (parts: seq<string>)
    ensures |parts| >= 1
    ensures forall i :: 0 <= i < |parts| ==> sep !in parts[i]
    ensures Join(parts, sep) == s
    ensures sep !in s ==> parts == [s]
    ensures sep in s ==> |parts| >= 2 && parts[0] == s[..Find(s, sep)]
    decreases |s|
  {
    var k := Find(s, sep);
    if k == -1 then [s]
    else
      var rest := Split(s[k + 1..], sep);
      assert s[..k] + [sep] + s[k + 1..] == s;
      [s[..k]] + rest
  }

  // ---------------------------------------------------------------------
  // Python `int(text)` in base 10
  // ---------------------------------------------------------------------

  predicate IsDigit(c: char) { '0' <= c <= '9' }

  /** The white space `int` skips around the number: the C-locale spaces
      of ASCII (space, tab, line feed, vertical tab, form feed, carriage
      return) and the non-ASCII Unicode white-space code points. The ASCII
      information separators U+001C to U+001F, which `str.strip()` removes,
      are not among them. */
  predicate IsSpace(c: char) {
    c == ' ' || ('\t' <= c <= '\r')
    || c == '\U{85}' || c == '\U{a0}' || c == '\U{1680}'
    || ('\U{2000}' <= c <= '\U{200a}') || c == '\U{2028}' || c == '\U{2029}'
    || c == '\U{202f}' || c == '\U{205f}' || c == '\U{3000}'
  }

  function StripLeft(s: string): (r: string)
    ensures |r| <= |s| && r == s[|s| - |r|..]
    ensures r == [] || !IsSpace(r[0])
    ensures forall i :: 0 <= i < |s| - |r| ==> IsSpace(s[i])
  {
    if |s| > 0 && IsSpace(s[0]) then StripLeft(s[1..]) else s
  }

  function StripRight(s: string): (r: string)
    ensures |r| <= |s| && r == s[..|r|]
    ensures r == [] || !IsSpace(r[|r| - 1])
    ensures forall i :: |r| <= i < |s| ==> IsSpace(s[i])
  {
    if |s| > 0 && IsSpace(s[|s| - 1]) then StripRight(s[..|s| - 1]) else s
  }

  /** Python's grammar for the digits of a base-10 integer: digits with
      single underscores between them. */
  predicate DigitGroups(s: string) {
    && |s| > 0 && IsDigit(s[0]) && IsDigit(s[|s| - 1])
    && (forall i :: 0 <= i < |s| ==> IsDigit(s[i]) || s[i] == '_')
    && (forall i :: 0 <= i < |s| - 1 && s[i] == '_' ==> s[i + 1] != '_')
  }

  /** The number the digits of `s` spell, underscores skipped. */
  function DigitsValue(s: string): nat {
    if s == [] then 0
    else
      var c := s[|s| - 1];
      var high := DigitsValue(s[..|s| - 1]);
      if IsDigit(c) then 10 * high + (c as int - '0' as int) else high
  }

  /** `int(t)`: surrounding white space, an optional sign, then digit
      groups; anything else raises ValueError, which is `None` here. */
  function ParseInt(t: string): (r: Option<int>)
    ensures r.Some? <==>
      var u := StripRight(StripLeft(t));
      DigitGroups(u) || (|u| > 0 && (u[0] == '+' || u[0] == '-') && DigitGroups(u[1..]))
  {
    var u := StripRight(StripLeft(t));
    if |u| > 0 && (u[0] == '+' || u[0] == '-') then
      var v: int := DigitsValue(u[1..]);
      if DigitGroups(u[1..]) then Some(if u[0] == '-' then -v else v) else None
    else if DigitGroups(u) then Some(DigitsValue(u))
    else None
  }

  // ---------------------------------------------------------------------
  // Python `str(m)` for an int
  // ---------------------------------------------------------------------

  function DigitChar(d: int): char
    requires 0 <= d < 10
  {
    ('0' as int + d) as char
  }

  function NatToString(n: nat): (s: string)
    ensures |s| > 0 && forall i :: 0 <= i < |s| ==> IsDigit(s[i])
    ensures n != 0 ==> s[0] != '0'
  {
    if n < 10 then [DigitChar(n)] else NatToString(n / 10) + [DigitChar(n % 10)]
  }

  /** `str(m)`: a `-` exactly for a negative number, then the decimal
      digits of its magnitude, with no leading zero. */
  function IntToString(m: int): (s: string)
    ensures |s| > 0 && (s[0] == '-' <==> m < 0)
    ensures var d := if m < 0 then s[1..] else s;
            && d != [] && (forall i :: 0 <= i < |d| ==> IsDigit(d[i]))
            && (d[0] == '0' ==> m == 0)
            && DigitsValue(d) == if m < 0 then -m else m
  {
    var n: nat := if m < 0 then -m else m;
    NatToStringValue(n);
    if m < 0 then
      assert ("-" + NatToString(n))[1..] == NatToString(n);
      "-" + NatToString(n)
    else NatToString(n)
  }

  lemma {:induction false} NatToStringValue(n: nat)
    ensures DigitGroups(NatToString(n)) && DigitsValue(NatToString(n)) == n
  {
    var s := NatToString(n);
    if n >= 10 {
      NatToStringValue(n / 10);
      assert s[..|s| - 1] == NatToString(n / 10);
    }
  }

  /** Stripping leaves a text alone whose ends are not white space. */
  lemma StripSolid(s: string)
    requires |s| > 0 && !IsSpace(s[0]) && !IsSpace(s[|s| - 1])
    ensures StripRight(StripLeft(s)) == s
  {
    assert StripLeft(s) == s;
  }

  /** `int` reads back what `str` writes for a non-negative integer ... */
  lemma ParseDigits(d: string)
    requires DigitGroups(d)
    ensures ParseInt(d) == Some(DigitsValue(d))
  {
    assert !IsSpace(d[0]) && !IsSpace(d[|d| - 1]);
    StripSolid(d);
  }

  /** ... and for a negative one. */
  lemma ParseNegativeDigits(d: string)
    requires DigitGroups(d)
    ensures ParseInt("-" + d) == Some(-(DigitsValue(d) as int))
  {
    var s := "-" + d;
    assert !IsSpace(s[0]) && !IsSpace(s[|s| - 1]);
    StripSolid(s);
    assert s[1..] == d;
  }

  /** ... and a `+` sign keeps the value. */
  lemma ParsePositiveDigits(d: string)
    requires DigitGroups(d)
    ensures ParseInt("+" + d) == Some(DigitsValue(d) as int)
  {
    var s := "+" + d;
    assert !IsSpace(s[0]) && !IsSpace(s[|s| - 1]);
    StripSolid(s);
    assert s[1..] == d;
  }

  /** Leading white space does not change what stripping on the left leaves. */
  lemma {:induction false} StripLeftSpaces(w: string, x: string)
    requires forall i :: 0 <= i < |w| ==> IsSpace(w[i])
    ensures StripLeft(w + x) == StripLeft(x)
    decreases |w|
  {
    if w == [] {
      assert w + x == x;
    } else {
      assert (w + x)[0] == w[0];
      assert (w + x)[1..] == w[1..] + x;
      StripLeftSpaces(w[1..], x);
    }
  }

  /** Trailing white space does not change what stripping on the right leaves. */
  lemma {:induction false} StripRightSpaces(x: string, w: string)
    requires forall i :: 0 <= i < |w| ==> IsSpace(w[i])
    ensures StripRight(x + w) == StripRight(x)
    decreases |w|
  {
    if w == [] {
      assert x + w == x;
    } else {
      var s := x + w;
      assert s[|s| - 1] == w[|w| - 1];
      assert s[..|s| - 1] == x + w[..|w| - 1];
      StripRightSpaces(x, w[..|w| - 1]);
    }
  }

  /** What stripping leaves of `w1 + x + w2`, when `x` starts and ends with
      no white space. */
  lemma StripPadded(w1: string, x: string, w2: string)
    requires forall i :: 0 <= i < |w1| ==> IsSpace(w1[i])
    requires forall i :: 0 <= i < |w2| ==> IsSpace(w2[i])
    requires |x| > 0 && !IsSpace(x[0]) && !IsSpace(x[|x| - 1])
    ensures StripRight(StripLeft(w1 + x + w2)) == x
  {
    assert w1 + x + w2 == w1 + (x + w2);
    StripLeftSpaces(w1, x + w2);
    assert (x + w2)[0] == x[0];
    assert StripLeft(x + w2) == x + w2;
    StripRightSpaces(x, w2);
    StripSolid(x);
    assert StripLeft(x) == x;
  }

  /** White space around a text whose ends are not white space does not
      change what `int` makes of it. */
  lemma ParseIgnoresPadding(w1: string, x: string, w2: string)
    requires forall i :: 0 <= i < |w1| ==> IsSpace(w1[i])
    requires forall i :: 0 <= i < |w2| ==> IsSpace(w2[i])
    requires |x| > 0 && !IsSpace(x[0]) && !IsSpace(x[|x| - 1])
    ensures ParseInt(w1 + x + w2) == ParseInt(x)
  {
    StripPadded(w1, x, w2);
    StripSolid(x);
  }

  /** The value `int` gives unsigned digit groups with white space around. */
  lemma ParsePadded(w1: string, d: string, w2: string)
    requires forall i :: 0 <= i < |w1| ==> IsSpace(w1[i])
    requires forall i :: 0 <= i < |w2| ==> IsSpace(w2[i])
    requires DigitGroups(d)
    ensures ParseInt(w1 + d + w2) == Some(DigitsValue(d) as int)
  {
    ParseIgnoresPadding(w1, d, w2);
    ParseDigits(d);
  }

  /** The value `int` gives digit groups led by `+`, white space around. */
  lemma ParsePaddedPlus(w1: string, d: string, w2: string)
    requires forall i :: 0 <= i < |w1| ==> IsSpace(w1[i])
    requires forall i :: 0 <= i < |w2| ==> IsSpace(w2[i])
    requires DigitGroups(d)
    ensures ParseInt(w1 + ("+" + d) + w2) == Some(DigitsValue(d) as int)
  {
    var x := "+" + d;
    assert x[|x| - 1] == d[|d| - 1];
    ParseIgnoresPadding(w1, x, w2);
    ParsePositiveDigits(d);
  }

  /** The value `int` gives digit groups led by `-`, white space around. */
  lemma ParsePaddedMinus(w1: string, d: string, w2: string)
    requires forall i :: 0 <= i < |w1| ==> IsSpace(w1[i])
    requires forall i :: 0 <= i < |w2| ==> IsSpace(w2[i])
    requires DigitGroups(d)
    ensures ParseInt(w1 + ("-" + d) + w2) == Some(-(DigitsValue(d) as int))
  {
    var x := "-" + d;
    assert x[|x| - 1] == d[|d| - 1];
    ParseIgnoresPadding(w1, x, w2);
    ParseNegativeDigits(d);
  }

  /** `int` does not skip the ASCII information separators: a count led by
      U+001C is refused. */
  lemma SeparatorRefused()
    ensures ParseInt("\U{1c}5") == None
  {
    var t := "\U{1c}5";
    assert !IsSpace(t[0]) && !IsSpace(t[1]);
    StripSolid(t);
    assert !IsDigit(t[0]);
  }

  /** `int(str(m)) == m` for every integer. */
  lemma ParseIntToString(m: int)
    ensures ParseInt(IntToString(m)) == Some(m)
  {
    var n: nat := if m < 0 then -m else m;
    NatToStringValue(n);
    if m < 0 {
      ParseNegativeDigits(NatToString(n));
    } else {
      ParseDigits(NatToString(n));
    }
  }

  /** `str(m)` holds no `)`, and no `-` after its first character. */
  lemma IntToStringChars(m: int)
    ensures ')' !in IntToString(m)
    ensures '-' !in NatToString(if m < 0 then -m else m)
  {
    var d := NatToString(if m < 0 then -m else m);
    assert forall i :: 0 <= i < |d| ==> IsDigit(d[i]);
    assert IntToString(m) == if m < 0 then "-" + d else d;
  }

  // ---------------------------------------------------------------------
  // The codec
  // ---------------------------------------------------------------------

  /** The text between the first `(` and the first `)`, as the Python slice
      `s[s.find("(") + 1 : s.find(")")]` computes it. */
  function Payload(s: string): (p: string)
    ensures '(' in s && ')' in s && Find(s, '(') < Find(s, ')')
            ==> p == s[Find(s, '(') + 1..Find(s, ')')]
    ensures ')' in s && Find(s, ')') <= Find(s, '(') ==> p == []
    ensures '(' !in s && ')' in s ==> p == s[..Find(s, ')')]
    ensures '(' in s && ')' !in s ==>
              p == if Find(s, '(') + 1 < |s| - 1 then s[Find(s, '(') + 1..|s| - 1] else []
    ensures '(' !in s && ')' !in s ==> p == if |s| > 1 then s[..|s| - 1] else []
  {
    Slice(s, Find(s, '(') + 1, Find(s, ')'))
  }

  /** The integer millisecond count `s` encodes: `int(...)` raises ValueError
      on a malformed number, and indexing the empty payload raises IndexError. */
  function DecodeMillis(s: string): (r: Result<int>)
    ensures Payload(s) == [] ==> r == Err(IndexError)
    ensures r.Err? ==> r.error == IndexError || r.error == ValueError
  {
    DecodePayload(Payload(s))
  }

  /** The millisecond count a payload spells. */
  function DecodePayload(p: string): (r: Result<int>)
    ensures p == [] ==> r == Err(IndexError)
    ensures r.Err? ==> r.error == IndexError || r.error == ValueError
  {
    if |p| == 0 then Err(IndexError)
    else if p[0] == '-' then
      Negated(ParseInt(Split(p, '-')[1]))
    else
      match ParseInt(Split(p, '-')[0])
      case Some(n) => Ok(n)
      case None => Err(ValueError)
  }

  /** The parsed integer times -1, or ValueError when it did not parse. */
  function Negated(o: Option<int>): (r: Result<int>)
    ensures o.None? <==> r == Err(ValueError)
    ensures o.Some? ==> r == Ok(-o.value)
  {
    match o
    case Some(n) => Ok(-n)
    case None => Err(ValueError)
  }

  /** The day an instant falls on, with the local timezone taken as UTC:
      the day whose span of milliseconds contains `m`. */
  function DayOfMillis(m: int): (d: Day)
    ensures d * MILLIS_PER_DAY <= m < d * MILLIS_PER_DAY + MILLIS_PER_DAY
  {
    m / MILLIS_PER_DAY
  }

  /** `convert_msdate_to_date(v)`. A value that is not a string has no
      `find` method: AttributeError. */
  function ConvertMsDate(v: Value): (r: Result<Day>)
    ensures !v.Str? ==> r == Err(AttributeError)
    ensures v.Str? && DecodeMillis(v.s).Ok? ==> r == Ok(DayOfMillis(DecodeMillis(v.s).value))
    ensures v.Str? && DecodeMillis(v.s).Err? ==> r == Err(DecodeMillis(v.s).error)
  {
    match v
    case Str(s) =>
      (match DecodeMillis(s)
       case Ok(m) => Ok(DayOfMillis(m))
       case Err(e) => Err(e))
    case _ => Err(AttributeError)
  }

  /** The request encoder `f"/Date({m})/"`. */
  function EncodeMsDate(m: int): (s: string)
    ensures Payload(s) == IntToString(m)
  {
    IntToStringChars(m);
    PayloadOfEnvelope(IntToString(m));
    "/Date(" + IntToString(m) + ")/"
  }

  // ---------------------------------------------------------------------
  // Properties
  // ---------------------------------------------------------------------

  /** The text before the first `-`, or all of it. */
  function UpToDash(t: string): (r: string)
    ensures '-' !in r
  {
    if '-' in t then t[..Find(t, '-')] else t
  }

  /** A payload that starts with `-` is a negative count: minus the integer
      between the first and the second `-`. */
  lemma DecodeNegative(p: string)
    requires p != [] && p[0] == '-'
    ensures DecodePayload(p) == Negated(ParseInt(UpToDash(p[1..])))
  {
    SplitLeadingDash(p);
  }

  /** Splitting a text that starts with `-` gives an empty first piece, then
      the text up to the next `-`. */
  lemma SplitLeadingDash(p: string)
    requires p != [] && p[0] == '-'
    ensures |Split(p, '-')| >= 2 && Split(p, '-')[1] == UpToDash(p[1..])
  {
    assert Find(p, '-') == 0;
    var rest := Split(p[1..], '-');
    assert Split(p, '-') == [p[..0]] + rest;
  }

  /** Any other payload is the integer before the first `-`; the offset
      after it is ignored. */
  lemma DecodePositive(p: string)
    requires p != [] && p[0] != '-'
    ensures var n := ParseInt(UpToDash(p));
            DecodePayload(p) == if n.None? then Err(ValueError) else Ok(n.value)
  {
  }

  /** For text without `-`, cutting at the first `-` of text + tail keeps
      the text, when the tail is empty or starts with `-`. */
  lemma UpToDashPrefix(d: string, tail: string)
    requires '-' !in d
    requires tail == [] || tail[0] == '-'
    ensures UpToDash(d + tail) == d
  {
    if tail == [] {
      assert d + tail == d;
    } else {
      FindAfter(d, tail, '-');
      assert (d + tail)[..|d|] == d;
    }
  }

  /** A payload of `str(m)` decodes to `m`, whatever follows a `-` after it. */
  lemma DecodeText(s: string, m: int, tail: string)
    requires Payload(s) == IntToString(m) + tail
    requires tail == [] || tail[0] == '-'
    ensures DecodeMillis(s) == Ok(m)
  {
    var n: nat := if m < 0 then -m else m;
    var d := NatToString(n);
    IntToStringChars(m);
    ParseIntToString(n);
    assert IntToString(n) == d;
    if m < 0 {
      DecodeNegativeText(Payload(s), d, tail, n);
    } else {
      DecodePositiveText(Payload(s), d, tail, n);
    }
  }

  lemma DecodeNegativeText(p: string, d: string, tail: string, n: nat)
    requires p == "-" + d + tail && '-' !in d
    requires tail == [] || tail[0] == '-'
    requires ParseInt(d) == Some(n)
    ensures DecodePayload(p) == Ok(-(n as int))
  {
    DropSign(d, tail);
    UpToDashPrefix(d, tail);
    NegativeFromCut(p, n);
  }

  lemma NegativeFromCut(p: string, n: nat)
    requires p != [] && p[0] == '-' && ParseInt(UpToDash(p[1..])) == Some(n)
    ensures DecodePayload(p) == Ok(-(n as int))
  {
    DecodeNegative(p);
    NegatedSome(ParseInt(UpToDash(p[1..])), n);
  }

  lemma NegatedSome(o: Option<int>, n: int)
    requires o == Some(n)
    ensures Negated(o) == Ok(-n)
  {
  }

  lemma DropSign(d: string, tail: string)
    ensures ("-" + d + tail)[0] == '-' && ("-" + d + tail)[1..] == d + tail
  {
  }

  lemma DecodePositiveText(p: string, d: string, tail: string, n: nat)
    requires p == d + tail && '-' !in d && d != []
    requires tail == [] || tail[0] == '-'
    requires ParseInt(d) == Some(n)
    ensures DecodePayload(p) == Ok(n)
  {
    assert p[0] == d[0];
    UpToDashPrefix(d, tail);
    DecodePositive(p);
  }

  /** The payload of "/Date(" + text + ")/" is the text, when the text holds
      no `)`. */
  lemma PayloadOfEnvelope(text: string)
    requires ')' !in text
    ensures Payload("/Date(" + text + ")/") == text
  {
    var s := "/Date(" + text + ")/";
    assert s == "/Date(" + (text + ")/");
    FindWithin("/Date(", text + ")/", '(');
    FindAfter("/Date(", text + ")/", ')');
    FindAfter(text, ")/", ')');
    assert Find(s, ')') == 6 + |text|;
    assert s[6..6 + |text|] == text;
  }

  /** Round trip: the string the request encoder writes for `m` decodes to
      the day of `m`, for negative counts too. */
  lemma EncodeDecode(m: int)
    ensures DecodeMillis(EncodeMsDate(m)) == Ok(m)
    ensures ConvertMsDate(Str(EncodeMsDate(m))) == Ok(DayOfMillis(m))
  {
    var d := IntToString(m);
    IntToStringChars(m);
    PayloadOfEnvelope(d);
    assert d + [] == d;
    DecodeText(EncodeMsDate(m), m, []);
  }

  /** Round trip with a timezone offset: whatever stands after the `-`
      (without a `)`) is ignored, so "/Date(-86400000-0700)/" decodes to
      -86400000. */
  lemma EncodeDecodeWithOffset(m: int, offset: string)
    requires ')' !in offset
    ensures DecodeMillis("/Date(" + IntToString(m) + "-" + offset + ")/") == Ok(m)
  {
    IntToStringChars(m);
    var text := IntToString(m) + ("-" + offset);
    PayloadOfEnvelope(text);
    EnvelopeShape(IntToString(m), "-", offset);
    DecodeText("/Date(" + text + ")/", m, "-" + offset);
  }

  /** `int` refuses "<digits>+..." once the digits are not empty. */
  lemma PlusTailRejected(d: string, x: string)
    requires |d| > 0 && forall i :: 0 <= i < |d| ==> IsDigit(d[i])
    requires |x| > 0 && x[0] == '+'
    ensures ParseInt(d + x) == None
  {
    var t := d + x;
    assert IsDigit(t[0]) && t[|d|] == '+';
    assert StripLeft(t) == t;
    var u := StripRight(t);
    assert |u| > |d|;
    assert u[|d|] == '+';
    assert u[1..][|d| - 1] == '+';
  }

  /** Cutting "<digits>+..." at its first `-` still leaves the `+` after
      the digits, so `int` refuses it. */
  lemma PlusSurvivesCut(d: string, tail: string)
    requires |d| > 0 && forall i :: 0 <= i < |d| ==> IsDigit(d[i])
    requires |tail| > 0 && tail[0] == '+'
    ensures ParseInt(UpToDash(d + tail)) == None
  {
    assert '-' !in d by { assert forall i :: 0 <= i < |d| ==> d[i] != '-'; }
    FindAfter(d, tail, '-');
    var x := if '-' in tail then tail[..Find(tail, '-')] else tail;
    assert UpToDash(d + tail) == d + x;
    PlusTailRejected(d, x);
  }

  /** A payload that `int` refuses after the cut decodes to ValueError. */
  lemma RefusedPayload(p: string, sign: string, t: string)
    requires sign == [] || sign == "-"
    requires p == sign + t && (sign == [] ==> t != [] && t[0] != '-')
    requires ParseInt(UpToDash(t)) == None
    ensures DecodePayload(p) == Err(ValueError)
  {
    if sign == [] {
      assert p == t;
      DecodePositive(p);
    } else {
      assert p[1..] == t;
      DecodeNegative(p);
    }
  }

  /** "<digits>+..." and "-<digits>+..." are refused payloads. */
  lemma PlusPayloadRefused(sign: string, d: string, tail: string)
    requires sign == [] || sign == "-"
    requires |d| > 0 && forall i :: 0 <= i < |d| ==> IsDigit(d[i])
    requires |tail| > 0 && tail[0] == '+'
    ensures DecodePayload(sign + (d + tail)) == Err(ValueError)
  {
    PlusSurvivesCut(d, tail);
    RefusedPayload(sign + (d + tail), sign, d + tail);
  }

  /** A payload of `str(m)` followed by `+` is refused. */
  lemma DecodeRejectsPlus(s: string, m: int, tail: string)
    requires Payload(s) == IntToString(m) + tail
    requires |tail| > 0 && tail[0] == '+'
    ensures DecodeMillis(s) == Err(ValueError)
  {
    var n: nat := if m < 0 then -m else m;
    var d := NatToString(n);
    var sign := if m < 0 then "-" else "";
    assert Payload(s) == sign + (d + tail);
    PlusPayloadRefused(sign, d, tail);
  }

  /** An offset written with `+` is not split off, and `int` refuses the
      "<digits>+<offset>" text that remains. */
  lemma PlusOffsetIsRejected(m: int, offset: string)
    requires ')' !in offset
    ensures DecodeMillis("/Date(" + IntToString(m) + "+" + offset + ")/") == Err(ValueError)
  {
    IntToStringChars(m);
    var text := IntToString(m) + ("+" + offset);
    PayloadOfEnvelope(text);
    EnvelopeShape(IntToString(m), "+", offset);
    EnvelopeRefused(m, offset, text);
  }

  lemma EnvelopeShape(a: string, b: string, c: string)
    ensures "/Date(" + a + b + c + ")/" == "/Date(" + (a + (b + c)) + ")/"
  {
  }

  lemma EnvelopeRefused(m: int, offset: string, text: string)
    requires text == IntToString(m) + ("+" + offset)
    requires Payload("/Date(" + text + ")/") == text
    ensures DecodeMillis("/Date(" + text + ")/") == Err(ValueError)
  {
    DecodeRejectsPlus("/Date(" + text + ")/", m, "+" + offset);
  }

  /** A date whose payload holds no `-` and that `int` refuses is refused
      with ValueError; by SeparatorRefused, "/Date(\U{1c}5)/" is one. */
  lemma UnparsedPayloadRefused(t: string)
    requires t != [] && '-' !in t && ')' !in t
    requires ParseInt(t) == None
    ensures DecodeMillis("/Date(" + t + ")/") == Err(ValueError)
  {
    PayloadOfEnvelope(t);
    DecodePositive(t);
  }

  /** "/Date()/" has an empty payload: IndexError, never a default date. */
  lemma EmptyPayloadRaises()
    ensures DecodeMillis("/Date()/") == Err(IndexError)
    ensures ConvertMsDate(Str("/Date()/")) == Err(IndexError)
  {
    PayloadOfEnvelope("");
    assert "/Date(" + "" + ")/" == "/Date()/";
  }

  /** With no `)`, the slice stops one character before the end, so the
      last character of the text is silently dropped:
      "/Date(1536303600000" is read as 153630360000 milliseconds. */
  lemma MissingCloseDropsLastChar(text: string)
    requires ')' !in text && |text| > 0
    ensures Payload("/Date(" + text) == text[..|text| - 1]
  {
    var s := "/Date(" + text;
    FindWithin("/Date(", text, '(');
    assert Find(s, '(') == 5;
    FindAfter("/Date(", text, ')');
    assert Find(s, ')') == -1;
    assert Payload(s) == Slice(s, 6, -1);
    assert SliceBound(|s|, -1) == |s| - 1;
    assert s[6..|s| - 1] == text[..|text| - 1];
  }

  /** The day depends only on the instant's day: every instant within a
      day's span of milliseconds decodes to that day. */
  lemma TimeOfDayDiscarded(d: Day, t: int)
    requires 0 <= t < MILLIS_PER_DAY
    ensures DayOfMillis(d * MILLIS_PER_DAY + t) == d
  {
  }

  /** Later instants never fall on earlier days. */
  lemma DayOfMillisMonotonic(m1: int, m2: int)
    requires m1 <= m2
    ensures DayOfMillis(m1) <= DayOfMillis(m2)
  {
  }
}
