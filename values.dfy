/**
 * The already-parsed definition documents the reader consumes: the values a YAML
 * document loads into (None, booleans, integers, strings, lists and dictionaries),
 * with the parts of Python's behaviour on them that the reader relies on —
 * truthiness, `dict.get` and iteration — and the exceptions those raise.
 */
module Values {
  import opened Results

  /**
   * A loaded document value. A dictionary keeps its entries in the order the
   * document lists them, and iterating it visits its keys in that order; Python
   * 2.7 iterates a dictionary in hash order instead, so this fixes one order of
   * the several it may take. A Python dictionary never holds a key twice, and
   * `Lookup` takes the first entry with a key.
   */
  datatype Value =
    | Null
    | Bool(b: bool)
    | Int(i: int)
    | Str(s: string)
    | List(items: seq<Value>)
    | Dict(entries: seq<(Value, Value)>)

  /** The Python exceptions other than the reader's own format error that its code can raise. */
  datatype Fault =
    | AttributeError     // `.get` called on a value that is not a dictionary
    | TypeError          // an unhashable dictionary key, or iterating a value that is not iterable
    | ValueError         // `'{0:s}'.format(x)` on an integer or a boolean
    | UnboundLocalError  // reading a local variable no branch has assigned

  /** Python truthiness: `None`, `False`, `0` and empty strings, lists and dictionaries are false. */
  predicate Truthy(v: Value) {
    match v
    case Null => false
    case Bool(b) => b
    case Int(i) => i != 0
    case Str(s) => s != []
    case List(items) => items != []
    case Dict(entries) => entries != []
  }

  /** The falsy values are exactly `None`, `False`, `0`, `""`, `[]` and `{}`. */
  lemma FalsyValues(v: Value)
    ensures !Truthy(v) <==> v in {Null, Bool(false), Int(0), Str(""), List([]), Dict([])}
  {
  }

  /** The value stored under the string key `key`, if any: the first entry whose key is `key`. */
  function Lookup(entries: seq<(Value, Value)>, key: string): (r: Option<Value>)
    ensures r.None? <==> forall i :: 0 <= i < |entries| ==> entries[i].0 != Str(key)
  {
    if entries == [] then None
    else if entries[0].0 == Str(key) then Some(entries[0].1)
    else
      var r := Lookup(entries[1..], key);
      assert forall i :: 1 <= i < |entries| ==> entries[i] == entries[1..][i - 1];
      r
  }

  /** The first entry under `key` decides the lookup. */
  lemma {:induction false} LookupFirst(entries: seq<(Value, Value)>, k: nat, key: string)
    requires k < |entries| && entries[k].0 == Str(key)
    requires forall j :: 0 <= j < k ==> entries[j].0 != Str(key)
    ensures Lookup(entries, key) == Some(entries[k].1)
  {
    if k > 0 {
      assert forall j :: 0 <= j < k - 1 ==> entries[1..][j] == entries[j + 1];
      LookupFirst(entries[1..], k - 1, key);
    }
  }

  /** `d.get(key, default)` on a dictionary with entries `entries`. */
  function GetOr(entries: seq<(Value, Value)>, key: string, default: Value): Value {
    match Lookup(entries, key)
    case Some(v) => v
    case None => default
  }

  /** `d.get(key, None)` (equivalently `d.get(key)`) on a dictionary with entries `entries`. */
  function Get(entries: seq<(Value, Value)>, key: string): Value {
    GetOr(entries, key, Null)
  }

  /**
   * `d.get(key, default)` and `d.get(key)` give the value of the first entry under
   * `key`, and the default (None for `get`) when no entry has that key.
   */
  lemma GetFirst(entries: seq<(Value, Value)>, key: string, default: Value)
    ensures (forall i :: 0 <= i < |entries| ==> entries[i].0 != Str(key)) ==>
      GetOr(entries, key, default) == default && Get(entries, key) == Null
    ensures forall k :: 0 <= k < |entries| && entries[k].0 == Str(key) && (forall j :: 0 <= j < k ==> entries[j].0 != Str(key)) ==>
      GetOr(entries, key, default) == entries[k].1 && Get(entries, key) == entries[k].1
  {
    forall k | 0 <= k < |entries| && entries[k].0 == Str(key) && (forall j :: 0 <= j < k ==> entries[j].0 != Str(key))
      ensures GetOr(entries, key, default) == entries[k].1
    {
      LookupFirst(entries, k, key);
    }
  }

  /**
   * The values `for x in v` visits: the items of a list, the keys of a dictionary,
   * the one-character strings of a string; anything else is not iterable.
   */
  function Iterate(v: Value): (r: Result<seq<Value>, Fault>)
    ensures r.Err? <==> !(v.List? || v.Dict? || v.Str?)
    ensures r.Err? ==> r.error == TypeError
    ensures v.List? ==> r == Ok(v.items)
    ensures v.Dict? ==> (r.Ok? && |r.value| == |v.entries| &&
      forall i :: 0 <= i < |v.entries| ==> r.value[i] == v.entries[i].0)
    ensures v.Str? ==> (r.Ok? && |r.value| == |v.s| &&
      forall i :: 0 <= i < |v.s| ==> r.value[i] == Str([v.s[i]]))
  {
    match v
    case List(items) => Ok(items)
    case Dict(entries) => Ok(seq(|entries|, i requires 0 <= i < |entries| => entries[i].0))
    case Str(s) => Ok(seq(|s|, i requires 0 <= i < |s| => Str([s[i]])))
    case _ => Err(TypeError)
  }
}
