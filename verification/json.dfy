/** JSON values, for the fields the source types as `any`, and JavaScript's falsiness on them. */
module Json {
  import opened Wrappers

  /** Numbers are integers here: the core only ever stores counts and millisecond times. */
  datatype Value =
    | Null
    | Bool(b: bool)
    | Num(n: int)
    | Str(s: string)
    | Arr(items: seq<Value>)
    | Obj(fields: seq<(string, Value)>)

  /** The falsy JSON values: `null`, `false`, `0` and `""`. */
  predicate Falsy(v: Value)
  {
    v == Null || v == Bool(false) || v == Num(0) || v == Str("")
  }

  /** `x || null` for an optional value of any type: absent and falsy values become `null`. */
  function OrNull(v: Option<Value>): (r: Value)
    ensures r == Null <==> v.None? || Falsy(v.value)
    ensures r != Null ==> v == Some(r)
  {
    match v
    case None => Null
    case Some(x) => if Falsy(x) then Null else x
  }

  /** `s || null` for an optional string: absent and empty strings become `null` (None). */
  function StringOrNull(s: Option<string>): (r: Option<string>)
    ensures r.None? <==> s.None? || s.value == ""
    ensures r.Some? ==> r == s
  {
    if s.Some? && s.value != "" then s else None
  }

  /** `o[key]` on a parsed object: `JSON.parse` keeps the last of duplicated keys. */
  function Get(fields: seq<(string, Value)>, key: string): (r: Option<Value>)
    ensures r.None? <==> forall k :: 0 <= k < |fields| ==> fields[k].0 != key
    ensures r.Some? ==> exists k :: 0 <= k < |fields| && fields[k] == (key, r.value)
                                    && forall j :: k < j < |fields| ==> fields[j].0 != key
  {
    if fields == [] then None
    else if fields[|fields| - 1].0 == key then Some(fields[|fields| - 1].1)
    else
      var init := fields[..|fields| - 1];
      var r := Get(init, key);
      GetSkipsLast(fields, init, key, r);
      r
  }

  /** A last field with another key does not change which field `Get` finds. */
  lemma GetSkipsLast(fields: seq<(string, Value)>, init: seq<(string, Value)>, key: string, r: Option<Value>)
    requires fields != [] && init == fields[..|fields| - 1] && fields[|fields| - 1].0 != key
    requires r.None? <==> forall k :: 0 <= k < |init| ==> init[k].0 != key
    requires r.Some? ==> exists k :: 0 <= k < |init| && init[k] == (key, r.value)
                                     && forall j :: k < j < |init| ==> init[j].0 != key
    ensures r.None? <==> forall k :: 0 <= k < |fields| ==> fields[k].0 != key
    ensures r.Some? ==> exists k :: 0 <= k < |fields| && fields[k] == (key, r.value)
                                    && forall j :: k < j < |fields| ==> fields[j].0 != key
  {
    assert forall k :: 0 <= k < |init| ==> fields[k] == init[k];
    if r.Some? {
      var k :| 0 <= k < |init| && init[k] == (key, r.value) && forall j :: k < j < |init| ==> init[j].0 != key;
      assert fields[k] == (key, r.value);
    }
  }
}
