/** "the app has the following config": the step context keeps a map of
    config overrides, starting with user tours disabled, and every row of a
    table sets one key to the JSON-decoded value of its second cell. JSON
    decoding itself is a parameter. */
module AppConfigOverrides {
  import opened Outcomes

  /** A JSON value, as json_decode produces it. */
  datatype Json =
    | JNull
    | JBool(b: bool)
    | JNumber(literal: string)
    | JString(s: string)
    | JArray(items: seq<Json>)
    | JObject(members: seq<(string, Json)>)

  /** One table row: the key cell and the JSON text of the value cell. */
  datatype ConfigRow = ConfigRow(key: string, value: string)

  const DefaultOverrides: map<string, Json> := map["disableUserTours" := JBool(true)]

  /** The overrides after applying `rows` in order to `m`. */
  function Overlay(m: map<string, Json>, rows: seq<ConfigRow>, decode: string -> Json): map<string, Json> {
    if rows == [] then m
    else
      var last := rows[|rows| - 1];
      Overlay(m, rows[..|rows| - 1], decode)[last.key := decode(last.value)]
  }

  /** The value cell of the last row of `rows` whose key is `key`. */
  function LastValueFor(rows: seq<ConfigRow>, key: string): (r: Option<string>)
    ensures r.None? <==> forall i :: 0 <= i < |rows| ==> rows[i].key != key
    ensures r.Some? ==>
      exists i :: 0 <= i < |rows| && rows[i] == ConfigRow(key, r.value) && forall j :: i < j < |rows| ==> rows[j].key != key
  {
    if rows == [] then None
    else if rows[|rows| - 1].key == key then Some(rows[|rows| - 1].value)
    else
      var r := LastValueFor(rows[..|rows| - 1], key);
      assert forall i :: 0 <= i < |rows| - 1 ==> rows[..|rows| - 1][i] == rows[i];
      r
  }

  /** Key by key: the last row for a key decides its value, and a key no row
      mentions keeps the value it had, or stays absent. */
  lemma {:induction false} OverlayLookup(m: map<string, Json>, rows: seq<ConfigRow>, decode: string -> Json, key: string)
    ensures key in Overlay(m, rows, decode) <==> key in m || LastValueFor(rows, key).Some?
    ensures LastValueFor(rows, key).Some? ==> Overlay(m, rows, decode)[key] == decode(LastValueFor(rows, key).value)
    ensures LastValueFor(rows, key).None? && key in m ==> Overlay(m, rows, decode)[key] == m[key]
  {
    if rows != [] {
      OverlayLookup(m, rows[..|rows| - 1], decode, key);
    }
  }

  /** Two tables applied one after the other act as their concatenation. */
  lemma {:induction false} OverlayConcat(m: map<string, Json>, a: seq<ConfigRow>, b: seq<ConfigRow>, decode: string -> Json)
    ensures Overlay(Overlay(m, a, decode), b, decode) == Overlay(m, a + b, decode)
  {
    if b == [] {
      assert a + b == a;
    } else {
      assert (a + b)[..|a + b| - 1] == a + b[..|b| - 1];
      OverlayConcat(m, a, b[..|b| - 1], decode);
    }
  }

  /** Applying the same table twice leaves what applying it once left. */
  lemma OverlayIdempotent(m: map<string, Json>, rows: seq<ConfigRow>, decode: string -> Json)
    ensures Overlay(Overlay(m, rows, decode), rows, decode) == Overlay(m, rows, decode)
  {
    var once := Overlay(m, rows, decode);
    var twice := Overlay(once, rows, decode);
    forall key | key in twice || key in once
      ensures key in twice && key in once && twice[key] == once[key]
    {
      OverlayLookup(m, rows, decode, key);
      OverlayLookup(once, rows, decode, key);
    }
  }

  class AppConfig {
    var overrides: map<string, Json>

    /** A fresh step context: user tours disabled, nothing else overridden. */
    constructor ()
      ensures overrides == DefaultOverrides
    {
      overrides := DefaultOverrides;
    }

    /** the_app_has_the_following_config: the rows are applied in order. */
    method ApplyTable(rows: seq<ConfigRow>, decode: string -> Json)
      modifies this
      ensures overrides == Overlay(old(overrides), rows, decode)
    {
      for i := 0 to |rows|
        invariant overrides == Overlay(old(overrides), rows[..i], decode)
      {
        assert rows[..i + 1][..i] == rows[..i];
        overrides := overrides[rows[i].key := decode(rows[i].value)];
      }
      assert rows[..|rows|] == rows;
    }
  }
}
