/** Property-list values as PropertyListSerialization hands them to Swift, already decoded. */
module Plist {
  import opened Wrappers

  datatype Value =
    | Str(text: string)
    | Arr(items: seq<Value>)
    | Dict(entries: map<string, Value>)
    | Scalar  // numbers, booleans, dates and data; no lookup of the model accepts one

  /** `d[key] as? String` */
  function StringAt(d: map<string, Value>, key: string): Option<string>
  {
    if key in d && d[key].Str? then Some(d[key].text) else None
  }

  /** `d[key] as? [String: Any]` */
  function DictAt(d: map<string, Value>, key: string): Option<map<string, Value>>
  {
    if key in d && d[key].Dict? then Some(d[key].entries) else None
  }

  /** `d[key] as? [String]`: an array whose every element is a string. */
  function StringsAt(d: map<string, Value>, key: string): (r: Option<seq<string>>)
    ensures r.Some? ==> key in d && d[key].Arr? && |r.value| == |d[key].items|
    ensures r.Some? ==> forall i :: 0 <= i < |r.value| ==> d[key].items[i] == Str(r.value[i])
    ensures (key in d && d[key].Arr? && forall i :: 0 <= i < |d[key].items| ==> d[key].items[i].Str?) ==> r.Some?
  {
    if key in d && d[key].Arr? && forall i :: 0 <= i < |d[key].items| ==> d[key].items[i].Str?
    then Some(seq(|d[key].items|, i requires 0 <= i < |d[key].items| => d[key].items[i].text))
    else None
  }
}
