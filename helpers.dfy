/** Marshaling of script arguments into host types (helpers.rs). */
module Helpers {
  import opened Core
  import opened LuaValue

  const VecOfStringsType := "Vec<String>"

  /** The error for a table whose sequence holds a value that is neither a
      string nor a number. */
  function NonStringTableError(errPrefix: string): Error {
    ConversionError("table", VecOfStringsType, errPrefix + " - Table contains non-string values")
  }

  /** The error for a value that is neither a string nor a table. */
  function NotStringOrListError(errPrefix: string): Error {
    ConversionError("unknown", VecOfStringsType, errPrefix + " - Expected a string or a list of strings")
  }

  /** Every value of the sequence converts to a string. */
  predicate AllCoercible(vs: seq<Value>) {
    forall k :: 0 <= k < |vs| ==> CoerceString(vs[k]).Some?
  }

  function CoerceAll(vs: seq<Value>): (r: seq<string>)
    requires AllCoercible(vs)
    ensures |r| == |vs|
    ensures forall k :: 0 <= k < |vs| ==> Some(r[k]) == CoerceString(vs[k])
  {
    seq(|vs|, k requires 0 <= k < |vs| => CoerceString(vs[k]).value)
  }

  /** Reference definition of "one or more strings": a string is a list of
      one; a table gives the strings of its sequence part, in order, and
      fails if one of them is not a string; anything else fails. */
  function StringsOf(value: Value, errPrefix: string): (r: Result<seq<string>>)
    ensures value.Str? ==> r == Ok([value.s])
    ensures value.Table? ==>
      (r.Ok? <==> AllCoercible(SequenceValues(value.items))) &&
      (r.Ok? ==> |r.value| == |SequenceValues(value.items)| &&
                 forall k :: 0 <= k < |r.value| ==> CoerceString(SequenceValues(value.items)[k]) == Some(r.value[k])) &&
      (r.Err? ==> r.error == NonStringTableError(errPrefix))
    ensures !value.Str? && !value.Table? ==> r == Err(NotStringOrListError(errPrefix))
  {
    match value
    case Str(s) => Ok([s])
    case Table(items, _) =>
      var vs := SequenceValues(items);
      if AllCoercible(vs) then Ok(CoerceAll(vs)) else Err(NonStringTableError(errPrefix))
    case _ => Err(NotStringOrListError(errPrefix))
  }

  /** to_vec_of_strings: fills the list element by element and returns the
      conversion error at the first element that is not a string. */
  method ToVecOfStrings(value: Value, errPrefix: string) returns (r: Result<seq<string>>)
    ensures r == StringsOf(value, errPrefix)
  {
    match value {
      case Str(s) =>
        r := Ok([s]);
      case Table(items, _) =>
        var result: seq<string> := [];
        var i := 0;
        while i < |items| && !items[i].Nil?
          invariant 0 <= i <= |items|
          invariant forall k :: 0 <= k < i ==> !items[k].Nil? && CoerceString(items[k]).Some?
          invariant |result| == i
          invariant forall k :: 0 <= k < i ==> Some(result[k]) == CoerceString(items[k])
        {
          var s := CoerceString(items[i]);
          if s.None? {
            SequencePrefixLength(items, i + 1);
            assert !AllCoercible(SequenceValues(items)) by {
              assert SequenceValues(items)[i] == items[i];
            }
            return Err(NonStringTableError(errPrefix));
          }
          result := result + [s.value];
          i := i + 1;
        }
        SequenceExit(items, i);
        assert result == CoerceAll(items[..i]);
        r := Ok(result);
      case _ =>
        r := Err(NotStringOrListError(errPrefix));
    }
  }

  /** A prefix of the array part free of holes lies inside the sequence part. */
  lemma SequencePrefixLength(items: seq<Value>, n: nat)
    requires n <= |items|
    requires forall k :: 0 <= k < n ==> !items[k].Nil?
    ensures n <= |SequenceValues(items)|
  {
    var m := |SequenceValues(items)|;
    if m < n {
      assert items[m].Nil?;
    }
  }

  /** Where the loop of ToVecOfStrings stops is exactly the end of the sequence part. */
  lemma SequenceExit(items: seq<Value>, i: nat)
    requires i <= |items|
    requires forall k :: 0 <= k < i ==> !items[k].Nil?
    requires i == |items| || items[i].Nil?
    ensures SequenceValues(items) == items[..i]
  {
    SequencePrefixLength(items, i);
  }

  /** A hole ends the sequence part: what follows it is never read. */
  lemma {:induction false} SequenceStopsAtHole(a: seq<Value>, b: seq<Value>)
    requires forall k :: 0 <= k < |a| ==> !a[k].Nil?
    ensures SequenceValues(a + [Nil] + b) == a
  {
    if a != [] {
      assert (a + [Nil] + b)[1..] == a[1..] + [Nil] + b;
      SequenceStopsAtHole(a[1..], b);
    }
  }

  /** A table holding only strings converts to exactly those strings, in order. */
  lemma {:induction false} StringTableRoundTrip(ss: seq<string>, fields: map<string, Value>, errPrefix: string)
    ensures StringsOf(Table(seq(|ss|, k requires 0 <= k < |ss| => Str(ss[k])), fields), errPrefix) == Ok(ss)
  {
    var items := seq(|ss|, k requires 0 <= k < |ss| => Str(ss[k]));
    SequenceExit(items, |items|);
    assert items[..|items|] == items;
    assert CoerceAll(items) == ss;
  }

  /** Only the sequence part before the first hole matters for the conversion. */
  lemma TableAfterHoleIgnored(a: seq<Value>, b: seq<Value>, fields: map<string, Value>, errPrefix: string)
    requires forall k :: 0 <= k < |a| ==> !a[k].Nil?
    ensures StringsOf(Table(a + [Nil] + b, fields), errPrefix) == StringsOf(Table(a, map[]), errPrefix)
  {
    SequenceStopsAtHole(a, b);
    SequenceExit(a, |a|);
    assert a[..|a|] == a;
  }

  /** get_value_prop_as_string: reads an optional string property of an
      optional table. No value: no property. A value that is not a table,
      or a property that is present but not a string: an error. */
  function GetValuePropAsString(value: Option<Value>, propName: string, errPrefix: string): (r: Result<Option<string>>)
    ensures value.None? ==> r == Ok(None)
    ensures value.Some? && !value.value.Table? ==>
      r == Err(Custom(errPrefix + " - value should be of type lua table, but was of another type."))
    ensures value.Some? && value.value.Table? ==>
      var fields := value.value.fields;
      && (r == Ok(None) <==> GetField(fields, propName).None?)
      && (r.Ok? && r.value.Some? <==> propName in fields && fields[propName].Str?)
      && (r.Ok? && r.value.Some? ==> r.value.value == fields[propName].s)
      && (r.Err? <==> propName in fields && !fields[propName].Nil? && !fields[propName].Str?)
      && (r.Err? ==> r.error == Custom("utils.file... options.base_dir must be of type string is present"))
  {
    match value
    case None => Ok(None)
    case Some(v) =>
      if !v.Table? then
        Err(Custom(errPrefix + " - value should be of type lua table, but was of another type."))
      else
        match GetField(v.fields, propName)
        case Some(Str(s)) => Ok(Some(s))
        case Some(_) => Err(Custom("utils.file... options.base_dir must be of type string is present"))
        case None => Ok(None)
  }

  /** A property is read independently of the other properties and of the array part. */
  lemma GetValuePropIgnoresOthers(items: seq<Value>, fields: map<string, Value>, propName: string,
                                  other: string, x: Value, errPrefix: string)
    requires other != propName
    ensures GetValuePropAsString(Some(Table(items, fields[other := x])), propName, errPrefix)
         == GetValuePropAsString(Some(Table([], fields)), propName, errPrefix)
  {
  }

  /** Setting a string property and reading it back gives that string. */
  lemma GetValuePropReadsBack(items: seq<Value>, fields: map<string, Value>, propName: string,
                              s: string, errPrefix: string)
    ensures GetValuePropAsString(Some(Table(items, fields[propName := Str(s)])), propName, errPrefix) == Ok(Some(s))
  {
  }
}
