/**
 Reading the diagnostics settings: sink definitions, sink lists and aggregation periods.
 */
module Sinks {
  import opened Text

  /** An entry of the sinksConfig object, any member of which may be missing. */
  datatype SinkJson = SinkJson(name: Option<string>, kind: Option<string>, sasUrl: Option<string>)

  datatype Sink = Sink(name: string, kind: string, sasUrl: Option<string>)

  type SinkMap = map<string, Sink>

  predicate Accepted(j: SinkJson)
  {
    j.name.Some? && j.kind.Some?
  }

  function ToSink(j: SinkJson): Sink
    requires Accepted(j)
  {
    Sink(j.name.value, j.kind.value, j.sasUrl)
  }

  /** `get_sink_by_name`. */
  function GetSinkByName(sinks: SinkMap, name: string): Option<Sink>
  {
    if name in sinks then Some(sinks[name]) else None
  }

  function LastDefinition(json: seq<SinkJson>, name: string): Option<Sink>
  {
    if json == [] then None
    else
      var last := json[|json| - 1];
      if Accepted(last) && last.name.value == name then Some(ToSink(last))
      else LastDefinition(json[..|json| - 1], name)
  }

  /** A name means its last accepted definition, and what it meant before if it has none. */
  ghost predicate Inserted(before: SinkMap, json: seq<SinkJson>, after: SinkMap)
  {
    forall name: string :: GetSinkByName(after, name) ==
      if LastDefinition(json, name).Some? then LastDefinition(json, name) else GetSinkByName(before, name)
  }

  /** Definition k has the name, has a type, and no later one does. */
  ghost predicate LastOf(json: seq<SinkJson>, name: string, k: nat)
  {
    && k < |json| && Defines(json[k], name)
    && forall j | k < j < |json| :: !Defines(json[j], name)
  }

  predicate Defines(j: SinkJson, name: string)
  {
    j.name == Some(name) && j.kind.Some?
  }

  lemma {:induction false} LastDefinitionIs(json: seq<SinkJson>, name: string, k: nat)
    requires LastOf(json, name, k)
    ensures LastDefinition(json, name) == Some(Sink(name, json[k].kind.value, json[k].sasUrl))
  {
    if k < |json| - 1 {
      LastDefinitionIs(json[..|json| - 1], name, k);
    }
  }

  lemma {:induction false} NoDefinition(json: seq<SinkJson>, name: string)
    ensures LastDefinition(json, name).None? <==> forall j | 0 <= j < |json| :: !Defines(json[j], name)
  {
    if json != [] {
      NoDefinition(json[..|json| - 1], name);
    }
  }

  /** The definitions that lack a name or a type, in order. */
  function Rejected(json: seq<SinkJson>): seq<SinkJson>
  {
    if json == [] then []
    else Rejected(json[..|json| - 1]) + (if Accepted(json[|json| - 1]) then [] else [json[|json| - 1]])
  }

  lemma {:induction false} RejectedAppend(a: seq<SinkJson>, b: seq<SinkJson>)
    ensures Rejected(a + b) == Rejected(a) + Rejected(b)
  {
    if b == [] {
      assert a + b == a;
    } else {
      assert (a + b)[..|a + b| - 1] == a + b[..|b| - 1];
      RejectedAppend(a, b[..|b| - 1]);
    }
  }

  /** A definition is reported at its place, and only if its name or its type is missing. */
  lemma RejectedExactly(a: seq<SinkJson>, j: SinkJson, b: seq<SinkJson>)
    ensures Rejected(a + [j] + b) == Rejected(a) + (if j.name.None? || j.kind.None? then [j] else []) + Rejected(b)
  {
    RejectedAppend(a + [j], b);
    RejectedAppend(a, [j]);
    assert [j][..0] == [];
  }

  class SinkConfiguration {
    var sinks: SinkMap

    constructor ()
      ensures sinks == map[]
    {
      sinks := map[];
    }

    /** Returns the definitions that were ignored. */
    method InsertFromConfig(json: Option<seq<SinkJson>>) returns (ignored: seq<SinkJson>)
      modifies this
      ensures Inserted(old(sinks), if json.Some? then json.value else [], sinks)
      ensures ignored == Rejected(if json.Some? then json.value else [])
    {
      ignored := [];
      if json.Some? {
        var all := json.value;
        for i := 0 to |all|
          invariant Inserted(old(sinks), all[..i], sinks)
          invariant ignored == Rejected(all[..i])
        {
          assert all[..i + 1][..i] == all[..i];
          if Accepted(all[i]) {
            sinks := sinks[all[i].name.value := ToSink(all[i])];
          } else {
            ignored := ignored + [all[i]];
          }
        }
        assert all[..|all|] == all;
      }
    }
  }

  /** `getSinkList`: the names of a comma-separated list, stripped. */
  function GetSinkList(sinks: Option<string>): seq<string>
  {
    if sinks.Some? && sinks.value != "" then StripAll(Split(sinks.value, ',')) else []
  }

  function StripAll(names: seq<string>): (r: seq<string>)
    ensures |r| == |names| && forall i | 0 <= i < |names| :: r[i] == Strip(names[i])
  {
    if names == [] then [] else [Strip(names[0])] + StripAll(names[1..])
  }

  lemma NoSinkList()
    ensures GetSinkList(None) == [] == GetSinkList(Some(""))
  {
  }

  /** The part is the name with blanks around it. */
  ghost predicate Padded(part: string, name: string)
  {
    exists x, y :: Blank(x) && Blank(y) && part == x + name + y
  }

  /** A list of names, each with any blanks around it, that is written with commas reads back as the names. */
  lemma SinkListReads(parts: seq<string>, names: seq<string>)
    requires parts != [] && |names| == |parts| && Join(parts, ',') != "" && AllFree(parts, ',')
    requires forall i | 0 <= i < |parts| :: Trimmed(names[i]) && Padded(parts[i], names[i])
    ensures GetSinkList(Some(Join(parts, ','))) == names
  {
    SplitJoin(parts, ',');
    forall i | 0 <= i < |parts| ensures Strip(parts[i]) == names[i] {
      var x, y :| Blank(x) && Blank(y) && parts[i] == x + names[i] + y;
      StripPadded(x, names[i], y);
    }
  }

  /** Trimmed, comma-free names come back as they were written. */
  lemma SinkListRoundTrip(names: seq<string>)
    requires names != [] && Join(names, ',') != ""
    requires AllFree(names, ',') && forall n | n in names :: Trimmed(n)
    ensures GetSinkList(Some(Join(names, ','))) == names
  {
    forall i | 0 <= i < |names| ensures Trimmed(names[i]) && Padded(names[i], names[i]) {
      assert names[i] in names;
      assert Blank("") && names[i] == "" + names[i] + "";
    }
    SinkListReads(names, names);
  }

  /** The periods that are given, in order; items without one are passed over. */
  function Given(items: seq<Option<string>>): seq<string>
  {
    if items == [] then []
    else Given(items[..|items| - 1]) + (if items[|items| - 1].Some? then [items[|items| - 1].value] else [])
  }

  lemma {:induction false} GivenAppend(a: seq<Option<string>>, b: seq<Option<string>>)
    ensures Given(a + b) == Given(a) + Given(b)
  {
    if b == [] {
      assert a + b == a;
    } else {
      assert (a + b)[..|a + b| - 1] == a + b[..|b| - 1];
      GivenAppend(a, b[..|b| - 1]);
    }
  }

  lemma GivenItem(a: seq<Option<string>>, item: Option<string>, b: seq<Option<string>>)
    ensures Given(a + [item] + b) == Given(a) + (if item.Some? then [item.value] else []) + Given(b)
  {
    GivenAppend(a + [item], b);
    GivenAppend(a, [item]);
    assert [item][..0] == [];
  }

  /** A period comes in at its place; an item without one makes no difference. */
  lemma GivenExactly(a: seq<Option<string>>, period: string, b: seq<Option<string>>)
    ensures Given(a + [Some(period)] + b) == Given(a) + [period] + Given(b)
    ensures Given(a + [None] + b) == Given(a) + Given(b)
  {
    GivenItem(a, Some(period), b);
    GivenItem(a, None, b);
    assert Given(a) + [] == Given(a);
  }

  /** `getAggregationPeriodsFromLadCfg` on the metricAggregation items, each with or without a period. */
  method GetAggregationPeriods(items: Option<seq<Option<string>>>) returns (results: seq<string>)
    ensures results == if items.Some? then Given(items.value) else []
  {
    results := [];
    if items.Some? {
      for k := 0 to |items.value|
        invariant results == Given(items.value[..k])
      {
        assert items.value[..k + 1][..k] == items.value[..k];
        if items.value[k].Some? {
          results := results + [items.value[k].value];
        }
      }
      assert items.value[..|items.value|] == items.value;
    }
  }
}
