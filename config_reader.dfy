/**
 The configuration reader of the bot (`ConfigReader`): a JSON document
 loaded once, and `get(*keys)`, which walks a path of keys through nested
 objects.

 Reading the file and decoding the JSON are not modelled; the constructor
 receives the decoded document.
 */
module Config {
  import opened Wrappers
  import opened Text

  /** A decoded JSON value, as `json.load` returns it: `None`, a `bool`, a
      number, a `str`, a `list` or a `dict`. */
  datatype Json =
    | JNull
    | JBool(b: bool)
    | JNumber(n: real)
    | JString(s: string)
    | JArray(items: seq<Json>)
    | JObject(members: map<string, Json>)

  /** The exceptions `get` can raise. */
  datatype GetError = KeyError(message: string) | TypeError

  /** One step of the walk: the value under the key, the key is absent (the
      `else` branch that raises `KeyError`), or Python raises `TypeError`. */
  datatype Step = Found(value: Json) | Absent | Fault

  /** Python's `key in data` for a string key: membership among the keys of
      a `dict`, equality with an element of a `list`, a substring of a `str`;
      the other JSON values are not iterable. */
  function Contains(data: Json, key: string): (r: Result<bool, GetError>)
    ensures r.Failure? <==> data.JNull? || data.JBool? || data.JNumber?
    ensures r.Failure? ==> r.error == TypeError
    ensures data.JObject? ==> (r == Success(true) <==> key in data.members)
    ensures data.JArray? ==> (r == Success(true) <==> JString(key) in data.items)
    ensures data.JString? ==> (r == Success(true) <==> Occurs(key, data.s))
  {
    match data
    case JObject(m) => Success(key in m)
    case JArray(items) => Success(JString(key) in items)
    case JString(s) => Success(Occurs(key, s))
    case _ => Failure(TypeError)
  }

  /** Python's `data[key]` once `key in data` holds: the member of a `dict`;
      a `list` or a `str` cannot be indexed by a string. */
  function Subscript(data: Json, key: string): (r: Result<Json, GetError>)
    requires Contains(data, key) == Success(true)
    ensures r.Success? <==> data.JObject?
    ensures r.Success? ==> key in data.members && r.value == data.members[key]
    ensures r.Failure? ==> r.error == TypeError
  {
    match data
    case JObject(m) => Success(m[key])
    case _ => Failure(TypeError)
  }

  /** One iteration of the loop in `get`. */
  function StepInto(data: Json, key: string): (r: Step)
    ensures r.Found? <==> data.JObject? && key in data.members
    ensures r.Found? ==> r.value == data.members[key]
    ensures r == Absent <==> Contains(data, key) == Success(false)
  {
    match Contains(data, key)
    case Failure(_) => Fault
    case Success(present) =>
      if !present then Absent
      else match Subscript(data, key)
        case Success(v) => Found(v)
        case Failure(_) => Fault
  }

  /** The walk along `keys`, one level per key, stopping at the first step
      that does not find a value. */
  function Walk(data: Json, keys: seq<string>): (r: Step)
    ensures keys == [] ==> r == Found(data)
    ensures !r.Found? ==> |keys| > 0
    ensures r.Found? && keys != [] ==> data.JObject? && keys[0] in data.members
    decreases |keys|
  {
    if keys == [] then Found(data)
    else match StepInto(data, keys[0])
      case Found(child) => Walk(child, keys[1..])
      case stop => stop
  }

  /** The message of the `KeyError`: every requested key, joined by ` -> `. */
  function KeyErrorMessage(keys: seq<string>): string {
    "Key " + Join(keys, " -> ") + " not found in configuration."
  }

  /** What `get(*keys)` returns or raises on the document `data`. */
  function Lookup(data: Json, keys: seq<string>): (r: Result<Json, GetError>)
    ensures keys == [] ==> r == Success(data)
    ensures r.Failure? && r.error.KeyError? ==> |keys| > 0 && r.error.message == KeyErrorMessage(keys)
  {
    match Walk(data, keys)
    case Found(v) => Success(v)
    case Absent => Failure(KeyError(KeyErrorMessage(keys)))
    case Fault => Failure(TypeError)
  }

  /** The reader: the path it was given and the document loaded from it,
      neither of which changes after construction. */
  class ConfigReader {
    const configFile: string
    const configData: Json

    /** `ConfigReader(config_file)` with `_load_config()` already done:
        `loaded` is the decoded content of the file. */
    constructor(configFile: string, loaded: Json)
      ensures this.configFile == configFile && this.configData == loaded
    {
      this.configFile := configFile;
      this.configData := loaded;
    }

    /** `get(*keys)`: descend one key at a time; raise `KeyError` naming the
        whole path as soon as a key is absent. */
    method Get(keys: seq<string>) returns (r: Result<Json, GetError>)
      ensures r == Lookup(configData, keys)
    {
      var data := configData;
      for i := 0 to |keys|
        invariant Walk(configData, keys[..i]) == Found(data)
      {
        var key := keys[i];
        WalkExtend(configData, keys[..i], key);
        assert keys[..i] + [key] == keys[..i + 1];
        var present := Contains(data, key);
        if present.Failure? {
          WalkStops(configData, keys[..i + 1], keys[i + 1..]);
          assert keys[..i + 1] + keys[i + 1..] == keys;
          return Failure(present.error);
        }
        if !present.value {
          WalkStops(configData, keys[..i + 1], keys[i + 1..]);
          assert keys[..i + 1] + keys[i + 1..] == keys;
          return Failure(KeyError(KeyErrorMessage(keys)));
        }
        var child := Subscript(data, key);
        if child.Failure? {
          WalkStops(configData, keys[..i + 1], keys[i + 1..]);
          assert keys[..i + 1] + keys[i + 1..] == keys;
          return Failure(child.error);
        }
        data := child.value;
      }
      assert keys[..|keys|] == keys;
      return Success(data);
    }
  }

  // ---------------------------------------------------------------------
  // Properties of the walk

  /** Walking `first + rest` is walking `first`, then `rest` from where it
      ended. */
  lemma {:induction false} WalkAppend(data: Json, first: seq<string>, rest: seq<string>)
    ensures Walk(data, first + rest) ==
      match Walk(data, first)
      case Found(v) => Walk(v, rest)
      case stop => stop
    decreases |first|
  {
    if first == [] {
      assert first + rest == rest;
    } else {
      assert (first + rest)[0] == first[0];
      assert (first + rest)[1..] == first[1..] + rest;
      match StepInto(data, first[0])
      case Found(child) => WalkAppend(child, first[1..], rest);
      case _ =>
    }
  }

  /** One more key is one more step. */
  lemma WalkExtend(data: Json, keys: seq<string>, key: string)
    ensures Walk(data, keys + [key]) ==
      match Walk(data, keys)
      case Found(v) => StepInto(v, key)
      case stop => stop
  {
    WalkAppend(data, keys, [key]);
    if Walk(data, keys).Found? {
      var v := Walk(data, keys).value;
      assert [key][1..] == [];
      assert Walk(v, [key]) == StepInto(v, key);
    }
  }

  /** A walk that has stopped stays stopped. */
  lemma WalkStops(data: Json, first: seq<string>, rest: seq<string>)
    requires !Walk(data, first).Found?
    ensures Walk(data, first + rest) == Walk(data, first)
  {
    WalkAppend(data, first, rest);
  }

  /** `get()` with no keys returns the whole document, and `get(k1, ..., kn)`
      on an object holding `k1` succeeds exactly when `get(k2, ..., kn)` on
      the member at `k1` does, with the same value; a type error below stays
      a type error, and a missing key below is reported with the full key
      path. */
  lemma {:induction false} LookupDescends(data: Json, key: string, keys: seq<string>)
    ensures Lookup(data, []) == Success(data)
    ensures data.JObject? && key in data.members ==>
      && (Lookup(data, [key] + keys).Success? <==> Lookup(data.members[key], keys).Success?)
      && (Lookup(data, [key] + keys).Success? ==>
            Lookup(data, [key] + keys).value == Lookup(data.members[key], keys).value)
      && (Lookup(data.members[key], keys) == Failure(TypeError) ==>
            Lookup(data, [key] + keys) == Failure(TypeError))
      && (Lookup(data.members[key], keys).Failure? && Lookup(data.members[key], keys).error.KeyError? ==>
            Lookup(data, [key] + keys) == Failure(KeyError(KeyErrorMessage([key] + keys))))
  {
    if data.JObject? && key in data.members {
      WalkAppend(data, [key], keys);
      assert [key][1..] == [];
      assert Walk(data, [key]) == Found(data.members[key]);
    }
  }

  /** The walk finds a value exactly when every key it reaches is a member
      of the object in hand. */
  lemma {:induction false} WalkFindsIff(data: Json, keys: seq<string>)
    ensures Walk(data, keys).Found? <==>
      forall i | 0 <= i < |keys| ::
        && Walk(data, keys[..i]).Found?
        && Walk(data, keys[..i]).value.JObject?
        && keys[i] in Walk(data, keys[..i]).value.members
    decreases |keys|
  {
    if keys != [] {
      var n := |keys| - 1;
      var init := keys[..n];
      assert init + [keys[n]] == keys;
      WalkExtend(data, init, keys[n]);
      WalkFindsIff(data, init);
      forall i | 0 <= i < n
        ensures keys[..i] == init[..i] && keys[i] == init[i]
      {
      }
    }
  }

  /** `get` raises `KeyError` exactly when the walk reaches a container that
      does not hold the next key; the message then names every requested
      key, the ones before and after the missing one included. */
  lemma KeyErrorAtFirstMissingKey(data: Json, keys: seq<string>)
    ensures Lookup(data, keys).Failure? && Lookup(data, keys).error.KeyError? <==>
      exists i | 0 <= i < |keys| ::
        && Walk(data, keys[..i]).Found?
        && Contains(Walk(data, keys[..i]).value, keys[i]) == Success(false)
    ensures Lookup(data, keys).Failure? && Lookup(data, keys).error.KeyError? ==>
      && Lookup(data, keys).error.message == KeyErrorMessage(keys)
      && forall j | 0 <= j < |keys| :: Occurs(keys[j], Lookup(data, keys).error.message)
  {
    if Walk(data, keys) == Absent {
      var i := FirstStop(data, keys);
      assert Walk(data, keys[..i + 1]) == Absent by {
        WalkStops(data, keys[..i + 1], keys[i + 1..]);
        assert keys[..i + 1] + keys[i + 1..] == keys;
      }
      WalkExtend(data, keys[..i], keys[i]);
      assert keys[..i] + [keys[i]] == keys[..i + 1];
      forall j | 0 <= j < |keys|
        ensures Occurs(keys[j], KeyErrorMessage(keys))
      {
        JoinContainsParts(keys, " -> ", j);
        OccursAfter("Key ", keys[j], Join(keys, " -> "));
        OccursBefore("Key " + Join(keys, " -> "), keys[j], " not found in configuration.");
      }
    }
    forall i | 0 <= i < |keys| && Walk(data, keys[..i]).Found?
                && Contains(Walk(data, keys[..i]).value, keys[i]) == Success(false)
      ensures Walk(data, keys) == Absent
    {
      MissingKeyStops(data, keys, i);
    }
  }

  /** A key absent where the walk reaches it ends the whole walk as absent. */
  lemma MissingKeyStops(data: Json, keys: seq<string>, i: nat)
    requires i < |keys| && Walk(data, keys[..i]).Found?
    requires Contains(Walk(data, keys[..i]).value, keys[i]) == Success(false)
    ensures Walk(data, keys) == Absent
  {
    WalkExtend(data, keys[..i], keys[i]);
    assert keys[..i] + [keys[i]] == keys[..i + 1];
    WalkStops(data, keys[..i + 1], keys[i + 1..]);
    assert keys[..i + 1] + keys[i + 1..] == keys;
  }

  /** The position of the key at which a stopped walk stopped. */
  lemma {:induction false} FirstStop(data: Json, keys: seq<string>) returns (i: nat)
    requires !Walk(data, keys).Found?
    ensures i < |keys| && Walk(data, keys[..i]).Found?
    ensures Walk(data, keys[..i + 1]) == Walk(data, keys)
    decreases |keys|
  {
    var n := |keys| - 1;
    var init := keys[..n];
    assert init + [keys[n]] == keys;
    WalkExtend(data, init, keys[n]);
    if Walk(data, init).Found? {
      i := n;
      assert keys[..i + 1] == keys;
    } else {
      i := FirstStop(data, init);
      assert keys[..i] == init[..i];
      assert keys[..i + 1] == init[..i + 1];
    }
  }
}
