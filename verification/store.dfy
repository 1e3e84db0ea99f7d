/** The IDE's `PropertiesComponent` as the plugin uses it: a map from keys
    to strings. Writing null removes a key; a string array is stored as its
    elements joined by line breaks and read back with Java's `split`. */
module Store {
  import opened Wrappers
  import opened Strings

  type Properties = map<string, string>

  /** `getValue(key)`: null when the key is not set. */
  function GetValue(p: Properties, key: string): (r: Option<string>)
    ensures r.Some? <==> key in p
    ensures r.Some? ==> r.value == p[key]
  {
    if key in p then Some(p[key]) else None
  }

  /** `isValueSet(key)`. */
  predicate IsValueSet(p: Properties, key: string) {
    key in p
  }

  /** Only `key` may have changed between `p` and `q`. */
  ghost predicate OnlyChanged(p: Properties, q: Properties, key: string) {
    forall k :: k != key ==> GetValue(q, k) == GetValue(p, k)
  }

  /** `setValue(key, value)`; a null value is `unsetValue(key)`. */
  function SetValue(p: Properties, key: string, value: Option<string>): (r: Properties)
    ensures GetValue(r, key) == value
    ensures OnlyChanged(p, r, key)
  {
    match value
    case Some(v) => p[key := v]
    case None => p - {key}
  }

  /** `unsetValue(key)`. */
  function Unset(p: Properties, key: string): (r: Properties)
    ensures !IsValueSet(r, key)
    ensures OnlyChanged(p, r, key)
  {
    SetValue(p, key, None)
  }

  /** `setValues(key, values)`: the values joined with "\n". */
  function SetValues(p: Properties, key: string, values: seq<string>): (r: Properties)
    ensures GetValue(r, key) == Some(Join(values, "\n"))
    ensures OnlyChanged(p, r, key)
  {
    SetValue(p, key, Some(Join(values, "\n")))
  }

  /** `getValues(key)`: the stored text split at line breaks, or null. */
  function GetValues(p: Properties, key: string): (r: Option<seq<string>>)
    ensures r.Some? <==> key in p
    ensures r.Some? && '\n' !in p[key] ==> r.value == [p[key]]
    ensures r.Some? ==> forall i :: 0 <= i < |r.value| ==> '\n' !in r.value[i]
  {
    match GetValue(p, key)
    case None => None
    case Some(v) => Some(JavaSplit(v, '\n'))
  }

  /** Non-empty values without line breaks come back as they were stored. */
  lemma ValuesRoundTrip(p: Properties, key: string, values: seq<string>)
    requires |values| > 0
    requires forall i :: 0 <= i < |values| ==> values[i] != "" && '\n' !in values[i]
    ensures GetValues(SetValues(p, key, values), key) == Some(values)
  {
    var s := Join(values, "\n");
    if '\n' in s {
      SplitOfJoin(values, '\n');
      assert DropTrailingEmpty(values) == values;
    } else {
      SplitOfJoin(values, '\n');
      SplitNoSeparator(s, '\n');
    }
  }

  /** An empty array is stored as "" and reads back as one empty value. */
  lemma EmptyValuesReadBack(p: Properties, key: string)
    ensures GetValues(SetValues(p, key, []), key) == Some([""])
  {
  }
}
