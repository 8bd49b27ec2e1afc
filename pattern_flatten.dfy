/** Flattening of pattern records (`flattern_pattern_properties` in
    src/ms/pattern.py). Each record fetched from the provider carries a
    `properties` list of `{Key, Value}` objects; flattening pops that list
    from every record and then writes each pair into its record as a
    top-level field, in place. */
module PatternFlatten {
  import opened Values

  const PROPERTIES: string := "properties"

  // ---------------------------------------------------------------------
  // The specification of one record
  // ---------------------------------------------------------------------

  /** The record after `pop("properties", None)`: the key is gone and every
      other key keeps its value. */
  function Popped(r: Record): (o: Record)
    ensures PROPERTIES !in o
    ensures forall k :: k != PROPERTIES ==> Lookup(o, k) == Lookup(r, k)
  {
    r - {PROPERTIES}
  }

  /** What `pop("properties", None)` returns: the list, or `None` (`null`). */
  function PoppedProps(r: Record): Value {
    if PROPERTIES in r then r[PROPERTIES] else Null
  }

  /** The key and value `patterns[index][prop["Key"]] = prop["Value"]`
      writes. Python evaluates `prop["Value"]` first, then `prop["Key"]`;
      an array or object key is unhashable (TypeError). */
  function PairOf(prop: Value): (r: Result<(string, Value)>)
    ensures r.Ok? <==> prop.Obj? && "Value" in prop.fields && "Key" in prop.fields
                       && prop.fields["Key"].Str?
    ensures r.Ok? ==> r.value == (prop.fields["Key"].s, prop.fields["Value"])
    ensures !prop.Obj? ==> r == Err(TypeError)
    ensures prop.Obj? && "Value" !in prop.fields ==> r == Err(KeyError("Value"))
    ensures prop.Obj? && "Value" in prop.fields && "Key" !in prop.fields ==> r == Err(KeyError("Key"))
  {
    match prop
    case Obj(m) =>
      if "Value" !in m then Err(KeyError("Value"))
      else if "Key" !in m then Err(KeyError("Key"))
      else (match m["Key"]
            case Str(k) => Ok((k, m["Value"]))
            case _ => Err(TypeError))
    case _ => Err(TypeError)
  }

  /** Writes the pairs into `r` left to right; the first malformed pair
      stops the loop with the pairs before it already written. */
  function WritePairs(r: Record, items: seq<Value>): (Record, Option<Exc>)
    decreases |items|
  {
    if items == [] then (r, None)
    else
      match PairOf(items[0])
      case Err(e) => (r, Some(e))
      case Ok(kv) => WritePairs(r[kv.0 := kv.1], items[1..])
  }

  /** The inner `for prop in props` loop for one record. */
  function WriteProps(r: Record, props: Value): (Record, Option<Exc>)
  {
    match Items(props)
    case Err(e) => (r, Some(e))
    case Ok(items) => WritePairs(r, items)
  }

  /** The outer loop from record `i` on: each record is written in turn, and
      an error leaves the records after the failing one popped only. */
  function FlattenFrom(rs: seq<Record>, props: seq<Value>, i: nat): (r: (seq<Record>, Option<Exc>))
    requires |rs| == |props| && i <= |rs|
    ensures |r.0| == |rs|
    decreases |rs| - i
  {
    if i == |rs| then (rs, None)
    else
      var (r, e) := WriteProps(rs[i], props[i]);
      if e.Some? then (rs[i := r], e) else FlattenFrom(rs[i := r], props, i + 1)
  }

  function PopAll(rs: seq<Record>): seq<Record> {
    seq(|rs|, i requires 0 <= i < |rs| => Popped(rs[i]))
  }

  function PropsAll(rs: seq<Record>): seq<Value> {
    seq(|rs|, i requires 0 <= i < |rs| => PoppedProps(rs[i]))
  }

  /** The list after `flattern_pattern_properties(rs)`, with the exception it
      raised, if any. Flattening keeps the length and order of the list; it
      succeeds exactly when every record's `properties` is a list of
      well-formed pairs; and then record i holds, for each key, the value its
      last pair for that key gives it, or else its own field, and
      `properties` only if one of its pairs carries that key. */
  function Flatten(rs: seq<Record>): (r: (seq<Record>, Option<Exc>))
    ensures |r.0| == |rs|
    ensures r.1.None? <==> forall i :: 0 <= i < |rs| ==> PropsWellFormed(rs[i])
    ensures r.1.None? ==>
              forall i, k :: 0 <= i < |rs| ==> Lookup(r.0[i], k) == FlattenedLookup(rs[i], k)
  {
    PoppedMeaning(rs);
    FlattenFrom(PopAll(rs), PropsAll(rs), 0)
  }

  // ---------------------------------------------------------------------
  // The in-place operation
  // ---------------------------------------------------------------------

  /** `flattern_pattern_properties(patterns)`: mutates the records of the
      list; the list it returns is `patterns` itself. */
  method FlattenPatternProperties(patterns: array<Record>) returns (err: Option<Exc>)
    modifies patterns
    ensures (patterns[..], err) == Flatten(old(patterns[..]))
  {
    ghost var orig := patterns[..];
    var props: seq<Value> := [];
    var i := 0;
    while i < patterns.Length
      invariant 0 <= i <= patterns.Length
      invariant |props| == i
      invariant forall k :: 0 <= k < i ==> props[k] == PoppedProps(orig[k]) && patterns[k] == Popped(orig[k])
      invariant forall k :: i <= k < patterns.Length ==> patterns[k] == orig[k]
    {
      props := props + [PoppedProps(patterns[i])];
      patterns[i] := Popped(patterns[i]);
      i := i + 1;
    }
    assert patterns[..] == PopAll(orig);
    assert props == PropsAll(orig);
    i := 0;
    while i < patterns.Length
      invariant 0 <= i <= patterns.Length && |props| == patterns.Length
      invariant FlattenFrom(patterns[..], props, i) == Flatten(orig)
    {
      ghost var start := patterns[..];
      var items := Items(props[i]);
      if items.Err? {
        assert start[i := start[i]] == start;
        return Some(items.error);
      }
      var xs := items.value;
      var j := 0;
      while j < |xs|
        invariant 0 <= j <= |xs|
        invariant patterns[..] == start[i := patterns[i]]
        invariant WritePairs(patterns[i], xs[j..]) == WriteProps(start[i], props[i])
      {
        var pair := PairOf(xs[j]);
        if pair.Err? {
          return Some(pair.error);
        }
        assert xs[j..][1..] == xs[j + 1..];
        patterns[i] := patterns[i][pair.value.0 := pair.value.1];
        j := j + 1;
      }
      i := i + 1;
    }
    err := None;
  }

  // ---------------------------------------------------------------------
  // What flattening means
  // ---------------------------------------------------------------------

  /** The pair `item` is well formed and its key is `k`. */
  predicate KeyedBy(item: Value, k: string) {
    PairOf(item).Ok? && PairOf(item).value.0 == k
  }

  /** Scanning from the end, the index of the last pair whose key is `k`. */
  function LastPairIndex(items: seq<Value>, k: string): (r: Option<nat>)
    ensures r.Some? ==> r.value < |items| && KeyedBy(items[r.value], k)
                        && forall j :: r.value < j < |items| ==> !KeyedBy(items[j], k)
    ensures r.None? ==> forall j :: 0 <= j < |items| ==> !KeyedBy(items[j], k)
  {
    if items == [] then None
    else if KeyedBy(items[|items| - 1], k) then Some(|items| - 1)
    else LastPairIndex(items[..|items| - 1], k)
  }

  /** The value a key has once the pairs are merged into `r`: the last pair
      for the key wins, over earlier pairs and over the record's own field. */
  function Merged(r: Record, items: seq<Value>, k: string): Option<Value> {
    match LastPairIndex(items, k)
    case Some(j) => Some(PairOf(items[j]).value.1)
    case None => Lookup(r, k)
  }

  /** Writing the pairs one by one succeeds exactly when every pair is well
      formed, and then gives each key its merged value. */
  lemma {:induction false} WritePairsMerges(r: Record, items: seq<Value>)
    ensures WritePairs(r, items).1.None? <==> forall j :: 0 <= j < |items| ==> PairOf(items[j]).Ok?
    ensures WritePairs(r, items).1.None? ==>
              forall k :: Lookup(WritePairs(r, items).0, k) == Merged(r, items, k)
    decreases |items|
  {
    if items != [] {
      var p := PairOf(items[0]);
      if p.Ok? {
        var r' := r[p.value.0 := p.value.1];
        var rest := items[1..];
        WritePairsMerges(r', rest);
        assert forall j :: 0 <= j < |rest| ==> rest[j] == items[j + 1];
        if WritePairs(r, items).1.None? {
          forall k ensures Lookup(WritePairs(r, items).0, k) == Merged(r, items, k) {
            LastPairAfterFirst(items, k);
          }
        }
      }
    }
  }

  /** The last pair for `k` among all items is the last one after the first
      item, if there is one there, and otherwise the first item itself. */
  lemma LastPairAfterFirst(items: seq<Value>, k: string)
    requires items != []
    ensures var rest := LastPairIndex(items[1..], k);
            LastPairIndex(items, k) ==
              if rest.Some? then Some(rest.value + 1)
              else if KeyedBy(items[0], k) then Some(0) else None
  {
    var rest := LastPairIndex(items[1..], k);
    var all := LastPairIndex(items, k);
    assert forall j :: 1 <= j < |items| ==> items[1..][j - 1] == items[j];
    if rest.Some? {
      assert KeyedBy(items[rest.value + 1], k);
      assert all.Some? && all.value == rest.value + 1;
    }
  }

  /** The pair list the inner loop visits for a record (empty when the
      record has none it can iterate). */
  function PropItems(r: Record): seq<Value> {
    match Items(PoppedProps(r))
    case Ok(xs) => xs
    case Err(_) => []
  }

  /** The record's `properties` can be iterated and every pair is well formed. */
  predicate PropsWellFormed(r: Record) {
    && Items(PoppedProps(r)).Ok?
    && forall j :: 0 <= j < |PropItems(r)| ==> PairOf(PropItems(r)[j]).Ok?
  }

  /** What a record's key holds once the record is flattened. */
  function FlattenedLookup(r: Record, k: string): Option<Value> {
    Merged(Popped(r), PropItems(r), k)
  }

  lemma {:induction false} FlattenFromSpec(cur: seq<Record>, props: seq<Value>, i: nat)
    requires |cur| == |props| && i <= |cur|
    ensures var (out, e) := FlattenFrom(cur, props, i);
            && |out| == |cur|
            && (forall j :: 0 <= j < i ==> out[j] == cur[j])
            && (e.None? <==> forall j :: i <= j < |cur| ==> WriteProps(cur[j], props[j]).1.None?)
            && (e.None? ==> forall j :: i <= j < |cur| ==> out[j] == WriteProps(cur[j], props[j]).0)
    decreases |cur| - i
  {
    if i < |cur| {
      var (r, e) := WriteProps(cur[i], props[i]);
      if e.None? {
        FlattenFromSpec(cur[i := r], props, i + 1);
      }
    }
  }

  /** The outer loop over the popped records does what Flatten promises. */
  lemma PoppedMeaning(rs: seq<Record>)
    ensures var (out, e) := FlattenFrom(PopAll(rs), PropsAll(rs), 0);
            && (e.None? <==> forall i :: 0 <= i < |rs| ==> PropsWellFormed(rs[i]))
            && (e.None? ==> forall i, k :: 0 <= i < |rs| ==> Lookup(out[i], k) == FlattenedLookup(rs[i], k))
  {
    var cur, props := PopAll(rs), PropsAll(rs);
    FlattenFromSpec(cur, props, 0);
    forall i | 0 <= i < |rs|
      ensures WriteProps(cur[i], props[i]).1.None? <==> PropsWellFormed(rs[i])
      ensures WriteProps(cur[i], props[i]).1.None? ==>
                forall k :: Lookup(WriteProps(cur[i], props[i]).0, k) == FlattenedLookup(rs[i], k)
    {
      assert props[i] == PoppedProps(rs[i]) && cur[i] == Popped(rs[i]);
      if Items(props[i]).Ok? {
        assert PropItems(rs[i]) == Items(props[i]).value;
        WritePairsMerges(cur[i], Items(props[i]).value);
      }
    }
  }

  /** No flattened record keeps `properties`, unless one of its own pairs
      writes that key back. */
  lemma PropertiesRemoved(rs: seq<Record>, i: nat)
    requires i < |rs| && Flatten(rs).1.None?
    ensures PROPERTIES in Flatten(rs).0[i] <==> LastPairIndex(PropItems(rs[i]), PROPERTIES).Some?
  {
    assert Lookup(Flatten(rs).0[i], PROPERTIES) == FlattenedLookup(rs[i], PROPERTIES);
  }

  /** A record without a `properties` list (absent, or `null`) makes the
      whole flattening raise: iterating `None` is a TypeError. */
  lemma MissingPropertiesAborts(rs: seq<Record>, i: nat)
    requires i < |rs| && PoppedProps(rs[i]) == Null
    ensures Flatten(rs).1.Some?
  {
    assert !PropsWellFormed(rs[i]);
  }
}
