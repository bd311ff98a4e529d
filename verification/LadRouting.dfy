/**
 The metric routing compiler: plugins, aggregation intervals and sinks become a graph of derived
 events and streaming annotations.  What the graph means is what it delivers, end to end.
 */
module LadRouting {
  import opened Text
  import opened Sinks

  datatype StoreType = Local | Central | JsonBlob

  /** An event pulls from `source` every `interval` and pushes to `target`; a LADQuery aggregates on the way. */
  datatype DerivedEvent = DerivedEvent(interval: string, source: string, target: string, storeType: StoreType, ladQuery: bool)

  /** Everything in table `name` is streamed to the event hub behind `url`. */
  datatype Annotation = Annotation(name: string, url: string)

  datatype Graph = Graph(events: seq<DerivedEvent>, annotations: seq<Annotation>)

  const STORAGE: string := "storage-"
  const LOCAL: string := "aggregationLocal"

  function WadTableName(interval: string): string
  {
    "WADMetrics" + interval + "P10DV2S"
  }

  // ---------- Unique names ----------

  function UniqueName(prefix: string, n: nat): string
  {
    prefix + Pad(n, 6)
  }

  class EventNames {
    var uniquifiers: map<string, nat>

    constructor ()
      ensures uniquifiers == map[]
    {
      uniquifiers := map[];
    }

    function Count(prefix: string): nat
      reads this
    {
      if prefix in uniquifiers then uniquifiers[prefix] else 0
    }

    method MakeUniqueEventName(prefix: string) returns (name: string)
      modifies this
      ensures Count(prefix) == old(Count(prefix)) + 1 && name == UniqueName(prefix, Count(prefix))
      ensures forall p | p != prefix :: Count(p) == old(Count(p))
    {
      uniquifiers := uniquifiers[prefix := Count(prefix) + 1];
      name := prefix + Pad(uniquifiers[prefix], 6);
    }
  }

  lemma UniqueNames(prefix: string, m: nat, n: nat)
    requires UniqueName(prefix, m) == UniqueName(prefix, n)
    ensures m == n
  {
    var a, b := UniqueName(prefix, m), UniqueName(prefix, n);
    assert a[|prefix|..] == Pad(m, 6) && b[|prefix|..] == Pad(n, 6);
    ValueOfPad(m, 6);
    ValueOfPad(n, 6);
  }

  /** The count stands in at least six digits behind the prefix. */
  lemma UniqueNameReads(prefix: string, n: nat)
    ensures var name := UniqueName(prefix, n);
            && |name| >= |prefix| + 6 && name[..|prefix|] == prefix
            && AllDigits(name[|prefix|..]) && Value(name[|prefix|..]) == n
  {
    assert UniqueName(prefix, n)[|prefix|..] == Pad(n, 6);
    ValueOfPad(n, 6);
  }

  // ---------- Compiling ----------

  datatype Destination = Table(name: string) | Blob(name: string) | EventHub(url: string)

  /** Where a sink sends its data: nowhere if it is undefined, of unknown type, or an EventHub without a URL. */
  function Resolve(cfg: SinkMap, name: string): Option<Destination>
  {
    match GetSinkByName(cfg, name)
    case None => None
    case Some(s) =>
      if s.kind == "EventHub" then (if s.sasUrl.Some? then Some(EventHub(s.sasUrl.value)) else None)
      else if s.kind == "JsonBlob" then Some(Blob(name))
      else None
  }

  /** The derived event a JsonBlob sink adds. */
  function SinkEvent(cfg: SinkMap, interval: string, name: string, source: string): seq<DerivedEvent>
  {
    match Resolve(cfg, name)
    case Some(Blob(_)) => [DerivedEvent(interval, source, name, JsonBlob, false)]
    case _ => []
  }

  /** The annotation an EventHub sink adds. */
  function SinkAnnotation(cfg: SinkMap, name: string, source: string): seq<Annotation>
  {
    match Resolve(cfg, name)
    case Some(EventHub(url)) => [Annotation(source, url)]
    case _ => []
  }

  lemma ResolvedBlob(cfg: SinkMap, name: string)
    ensures var r := Resolve(cfg, name);
            r.Some? ==> !r.value.Table? && (r.value.Blob? ==> r.value.name == name)
  {
  }

  function SinkEvents(cfg: SinkMap, interval: string, sinks: seq<string>, source: string): seq<DerivedEvent>
  {
    if sinks == [] then []
    else SinkEvents(cfg, interval, sinks[..|sinks| - 1], source) + SinkEvent(cfg, interval, sinks[|sinks| - 1], source)
  }

  function SinkAnnotations(cfg: SinkMap, sinks: seq<string>, source: string): seq<Annotation>
  {
    if sinks == [] then []
    else SinkAnnotations(cfg, sinks[..|sinks| - 1], source) + SinkAnnotation(cfg, sinks[|sinks| - 1], source)
  }

  datatype Pair = Pair(plugin: string, interval: string)

  datatype Compiled = Compiled(graph: Graph, names: nat)

  /** Aggregate a pair into a local table, and pump that into the WAD table. */
  function LocalEvents(p: Pair, local: string): seq<DerivedEvent>
  {
    [DerivedEvent(p.interval, STORAGE + p.plugin, local, Local, true),
     DerivedEvent(p.interval, local, WadTableName(p.interval), Central, false)]
  }

  /** The part of the graph for one plugin and one interval. */
  function AddPair(c: Compiled, cfg: SinkMap, sinks: seq<string>, p: Pair): Compiled
  {
    var g := c.graph;
    var source, wad := STORAGE + p.plugin, WadTableName(p.interval);
    if sinks == [] then
      c.(graph := g.(events := g.events + [DerivedEvent(p.interval, source, wad, Central, true)]))
    else
      var local := UniqueName(LOCAL, c.names + 1);
      Compiled(Graph(g.events + (LocalEvents(p, local) + SinkEvents(cfg, p.interval, sinks, local)),
                     g.annotations + SinkAnnotations(cfg, sinks, local)),
               c.names + 1)
  }

  function AddPairs(c: Compiled, cfg: SinkMap, sinks: seq<string>, pairs: seq<Pair>): Compiled
  {
    if pairs == [] then c
    else AddPair(AddPairs(c, cfg, sinks, pairs[..|pairs| - 1]), cfg, sinks, pairs[|pairs| - 1])
  }

  function PairsOf(plugin: string, intervals: seq<string>): seq<Pair>
  {
    seq(|intervals|, i requires 0 <= i < |intervals| => Pair(plugin, intervals[i]))
  }

  function Pairs(plugins: seq<string>, intervals: seq<string>): seq<Pair>
  {
    if plugins == [] then []
    else Pairs(plugins[..|plugins| - 1], intervals) + PairsOf(plugins[|plugins| - 1], intervals)
  }

  function Extend(g: Graph, events: seq<DerivedEvent>, annotations: seq<Annotation>): Graph
  {
    Graph(g.events + events, g.annotations + annotations)
  }

  function WithSinks(g: Graph, cfg: SinkMap, interval: string, sinks: seq<string>, source: string): Graph
  {
    Extend(g, SinkEvents(cfg, interval, sinks, source), SinkAnnotations(cfg, sinks, source))
  }

  lemma NoSinks(g: Graph, cfg: SinkMap, interval: string, source: string)
    ensures WithSinks(g, cfg, interval, [], source) == g
  {
    assert g.events + [] == g.events && g.annotations + [] == g.annotations;
  }

  lemma WithNextSink(g: Graph, cfg: SinkMap, interval: string, sinks: seq<string>, k: nat, source: string)
    requires k < |sinks|
    ensures WithSinks(g, cfg, interval, sinks[..k + 1], source)
            == Extend(WithSinks(g, cfg, interval, sinks[..k], source),
                      SinkEvent(cfg, interval, sinks[k], source), SinkAnnotation(cfg, sinks[k], source))
  {
    assert sinks[..k + 1][..k] == sinks[..k];
    ExtendTwice(g, SinkEvents(cfg, interval, sinks[..k], source), SinkEvent(cfg, interval, sinks[k], source),
                SinkAnnotations(cfg, sinks[..k], source), SinkAnnotation(cfg, sinks[k], source));
  }

  lemma ExtendTwice(g: Graph, a: seq<DerivedEvent>, b: seq<DerivedEvent>, x: seq<Annotation>, y: seq<Annotation>)
    ensures Extend(Extend(g, a, x), b, y) == Extend(g, a + b, x + y)
  {
    assert (g.events + a) + b == g.events + (a + b);
    assert (g.annotations + x) + y == g.annotations + (x + y);
  }

  /** The block of a pair is what adding its parts one after the other makes. */
  lemma BlockInSteps(g: Graph, cfg: SinkMap, sinks: seq<string>, p: Pair, local: string)
    ensures var first, second := LocalEvents(p, local)[0], LocalEvents(p, local)[1];
            WithSinks(Extend(g.(events := g.events + [first]), [second], []), cfg, p.interval, sinks, local)
            == Extend(g, LocalEvents(p, local) + SinkEvents(cfg, p.interval, sinks, local), SinkAnnotations(cfg, sinks, local))
  {
    var first, second := LocalEvents(p, local)[0], LocalEvents(p, local)[1];
    assert (g.events + [first]) + [second] == g.events + LocalEvents(p, local);
    assert g.annotations + [] == g.annotations;
    assert [] + SinkAnnotations(cfg, sinks, local) == SinkAnnotations(cfg, sinks, local);
    ExtendTwice(g, LocalEvents(p, local), SinkEvents(cfg, p.interval, sinks, local), [], SinkAnnotations(cfg, sinks, local));
  }

  class LadConfigAll {
    var mdsdConfig: Graph
    const sinkConfigs: SinkMap
    const names: EventNames

    constructor (sinkConfigs: SinkMap, names: EventNames)
      ensures mdsdConfig == Graph([], []) && this.sinkConfigs == sinkConfigs && this.names == names
    {
      mdsdConfig := Graph([], []);
      this.sinkConfigs := sinkConfigs;
      this.names := names;
    }

    function State(): Compiled
      reads this, names
    {
      Compiled(mdsdConfig, names.Count(LOCAL))
    }

    method AddDerivedEvent(interval: string, source: string, eventName: string, storeType: StoreType, addLadQuery: bool)
      modifies this
      ensures mdsdConfig == old(mdsdConfig).(events := old(mdsdConfig.events) + [DerivedEvent(interval, source, eventName, storeType, addLadQuery)])
    {
      mdsdConfig := mdsdConfig.(events := mdsdConfig.events + [DerivedEvent(interval, source, eventName, storeType, addLadQuery)]);
    }

    method AddStreamingAnnotation(sinkName: string, sasUrl: string)
      modifies this
      ensures mdsdConfig == old(mdsdConfig).(annotations := old(mdsdConfig.annotations) + [Annotation(sinkName, sasUrl)])
    {
      mdsdConfig := mdsdConfig.(annotations := mdsdConfig.annotations + [Annotation(sinkName, sasUrl)]);
    }

    method HandleAlternateSinks(interval: string, sinks: seq<string>, source: string)
      modifies this
      ensures mdsdConfig == WithSinks(
        Extend(old(mdsdConfig), [DerivedEvent(interval, source, WadTableName(interval), Central, false)], []),
        sinkConfigs, interval, sinks, source)
    {
      ghost var g := mdsdConfig;
      AddDerivedEvent(interval, source, WadTableName(interval), Central, false);
      ghost var start := mdsdConfig;
      assert g.annotations + [] == g.annotations;
      NoSinks(start, sinkConfigs, interval, source);
      for k := 0 to |sinks|
        invariant mdsdConfig == WithSinks(start, sinkConfigs, interval, sinks[..k], source)
      {
        WithNextSink(start, sinkConfigs, interval, sinks, k, source);
        ghost var before := mdsdConfig;
        HandleSink(interval, sinks[k], source);
        assert mdsdConfig == Extend(before, SinkEvent(sinkConfigs, interval, sinks[k], source), SinkAnnotation(sinkConfigs, sinks[k], source));
      }
      assert sinks[..|sinks|] == sinks;
    }

    /** The body of the loop over the sinks. */
    method HandleSink(interval: string, name: string, source: string)
      modifies this
      ensures mdsdConfig == Extend(old(mdsdConfig), SinkEvent(sinkConfigs, interval, name, source), SinkAnnotation(sinkConfigs, name, source))
      ensures mdsdConfig.annotations == old(mdsdConfig.annotations) +
              if name in sinkConfigs && sinkConfigs[name].kind == "EventHub" && sinkConfigs[name].sasUrl.Some?
              then [Annotation(source, sinkConfigs[name].sasUrl.value)] else []
      ensures mdsdConfig.events == old(mdsdConfig.events) +
              if name in sinkConfigs && sinkConfigs[name].kind == "JsonBlob"
              then [DerivedEvent(interval, source, name, JsonBlob, false)] else []
    {
      ghost var g := mdsdConfig;
      assert g.events + [] == g.events && g.annotations + [] == g.annotations;
      var sink := GetSinkByName(sinkConfigs, name);
      if sink.Some? {
        if sink.value.kind == "EventHub" {
          if sink.value.sasUrl.Some? {
            AddStreamingAnnotation(source, sink.value.sasUrl.value);
          }
        } else if sink.value.kind == "JsonBlob" {
          AddDerivedEvent(interval, source, name, JsonBlob, false);
        }
      }
    }

    /** The body of the inner loop over the intervals. */
    method AddAggregation(plugin: string, interval: string, sinks: seq<string>)
      modifies this, names
      ensures State() == AddPair(old(State()), sinkConfigs, sinks, Pair(plugin, interval))
    {
      ghost var g := mdsdConfig;
      var ladSpecificStoragePlugin := STORAGE + plugin;
      if sinks != [] {
        var localTableName := names.MakeUniqueEventName(LOCAL);
        AddDerivedEvent(interval, ladSpecificStoragePlugin, localTableName, Local, true);
        HandleAlternateSinks(interval, sinks, localTableName);
        BlockInSteps(g, sinkConfigs, sinks, Pair(plugin, interval), localTableName);
      } else {
        AddDerivedEvent(interval, ladSpecificStoragePlugin, WadTableName(interval), Central, true);
      }
    }

    method UpdateMetricCollectionSettings(intervals: seq<string>, sinks: seq<string>, namespaces: seq<string>)
      modifies this, names
      ensures State() == AddPairs(old(State()), sinkConfigs, sinks, Pairs(namespaces, intervals))
    {
      ghost var start := State();
      for i := 0 to |namespaces|
        invariant State() == AddPairs(start, sinkConfigs, sinks, Pairs(namespaces[..i], intervals))
      {
        ghost var sofar := Pairs(namespaces[..i], intervals);
        assert namespaces[..i + 1][..i] == namespaces[..i];
        assert sofar + PairsOf(namespaces[i], intervals[..0]) == sofar;
        for j := 0 to |intervals|
          invariant State() == AddPairs(start, sinkConfigs, sinks, sofar + PairsOf(namespaces[i], intervals[..j]))
        {
          AddNextPair(start, sinkConfigs, sinks, sofar, namespaces[i], intervals, j);
          AddAggregation(namespaces[i], intervals[j], sinks);
        }
        assert intervals[..|intervals|] == intervals;
      }
      assert namespaces[..|namespaces|] == namespaces;
    }
  }

  lemma NextPair(sofar: seq<Pair>, plugin: string, intervals: seq<string>, j: nat)
    requires j < |intervals|
    ensures var next := sofar + PairsOf(plugin, intervals[..j + 1]);
            next != [] && next[|next| - 1] == Pair(plugin, intervals[j])
            && next[..|next| - 1] == sofar + PairsOf(plugin, intervals[..j])
  {
    var next := sofar + PairsOf(plugin, intervals[..j + 1]);
    assert next[..|next| - 1] == sofar + PairsOf(plugin, intervals[..j]);
  }

  lemma AddNextPair(c: Compiled, cfg: SinkMap, sinks: seq<string>, sofar: seq<Pair>, plugin: string, intervals: seq<string>, j: nat)
    requires j < |intervals|
    ensures AddPairs(c, cfg, sinks, sofar + PairsOf(plugin, intervals[..j + 1]))
            == AddPair(AddPairs(c, cfg, sinks, sofar + PairsOf(plugin, intervals[..j])), cfg, sinks, Pair(plugin, intervals[j]))
  {
    NextPair(sofar, plugin, intervals, j);
  }

  // ---------- What a graph delivers ----------

  /** Data of a storage table, sampled every interval, at a destination after some number of LADQueries. */
  datatype Delivery = Delivery(source: string, interval: string, to: Destination, queries: nat)

  function Queries(e: DerivedEvent): nat
  {
    if e.ladQuery then 1 else 0
  }

  /** What one event hands on from the table `table`. */
  function HandsOn(e: DerivedEvent, table: string, d: Delivery): multiset<Delivery>
  {
    if e.source != table || e.interval != d.interval || e.storeType.Local? then multiset{}
    else multiset{Delivery(d.source, d.interval, if e.storeType.Central? then Table(e.target) else Blob(e.target), d.queries + Queries(e))}
  }

  function HandedOn(events: seq<DerivedEvent>, table: string, d: Delivery): multiset<Delivery>
  {
    if events == [] then multiset{}
    else HandedOn(events[..|events| - 1], table, d) + HandsOn(events[|events| - 1], table, d)
  }

  function Streamed(annotations: seq<Annotation>, table: string, d: Delivery): multiset<Delivery>
  {
    if annotations == [] then multiset{}
    else
      var last := annotations[|annotations| - 1];
      Streamed(annotations[..|annotations| - 1], table, d) +
      (if last.name == table then multiset{d.(to := EventHub(last.url))} else multiset{})
  }

  /** Data on its way through a local table. */
  function InTransit(e: DerivedEvent): Delivery
  {
    Delivery(e.source, e.interval, Table(e.target), Queries(e))
  }

  /** All that becomes of the storage data one event pulls, directly or through a local table. */
  function Outcome(e: DerivedEvent, g: Graph): multiset<Delivery>
  {
    if !StartsWith(e.source, STORAGE) then multiset{}
    else if e.storeType.Local? then
      HandedOn(g.events, e.target, InTransit(e)) + Streamed(g.annotations, e.target, InTransit(e))
    else HandsOn(e, e.source, Delivery(e.source, e.interval, Table(""), 0))
  }

  function Outcomes(events: seq<DerivedEvent>, g: Graph): multiset<Delivery>
  {
    if events == [] then multiset{}
    else Outcomes(events[..|events| - 1], g) + Outcome(events[|events| - 1], g)
  }

  function Deliveries(g: Graph): multiset<Delivery>
  {
    Outcomes(g.events, g)
  }

  // ---------- What the settings ask for ----------

  function SinkWanted(cfg: SinkMap, name: string, p: Pair): multiset<Delivery>
  {
    var r := Resolve(cfg, name);
    if r.Some? then multiset{Delivery(STORAGE + p.plugin, p.interval, r.value, 1)} else multiset{}
  }

  function SinksWanted(cfg: SinkMap, sinks: seq<string>, p: Pair): multiset<Delivery>
  {
    if sinks == [] then multiset{} else SinksWanted(cfg, sinks[..|sinks| - 1], p) + SinkWanted(cfg, sinks[|sinks| - 1], p)
  }

  /** Aggregated once, a pair's data goes to its WAD table once and to each resolved sink once per listing. */
  function Wanted(cfg: SinkMap, sinks: seq<string>, p: Pair): multiset<Delivery>
  {
    multiset{Delivery(STORAGE + p.plugin, p.interval, Table(WadTableName(p.interval)), 1)} + SinksWanted(cfg, sinks, p)
  }

  function AllWanted(cfg: SinkMap, sinks: seq<string>, pairs: seq<Pair>): multiset<Delivery>
  {
    if pairs == [] then multiset{}
    else AllWanted(cfg, sinks, pairs[..|pairs| - 1]) + Wanted(cfg, sinks, pairs[|pairs| - 1])
  }

  // ---------- Compiling is correct ----------

  lemma {:induction false} HandedOnAppend(a: seq<DerivedEvent>, b: seq<DerivedEvent>, table: string, d: Delivery)
    ensures HandedOn(a + b, table, d) == HandedOn(a, table, d) + HandedOn(b, table, d)
  {
    if b == [] {
      assert a + b == a;
    } else {
      assert (a + b)[..|a + b| - 1] == a + b[..|b| - 1];
      HandedOnAppend(a, b[..|b| - 1], table, d);
    }
  }

  lemma {:induction false} StreamedAppend(a: seq<Annotation>, b: seq<Annotation>, table: string, d: Delivery)
    ensures Streamed(a + b, table, d) == Streamed(a, table, d) + Streamed(b, table, d)
  {
    if b == [] {
      assert a + b == a;
    } else {
      assert (a + b)[..|a + b| - 1] == a + b[..|b| - 1];
      StreamedAppend(a, b[..|b| - 1], table, d);
    }
  }

  lemma {:induction false} OutcomesAppend(a: seq<DerivedEvent>, b: seq<DerivedEvent>, g: Graph)
    ensures Outcomes(a + b, g) == Outcomes(a, g) + Outcomes(b, g)
  {
    if b == [] {
      assert a + b == a;
    } else {
      assert (a + b)[..|a + b| - 1] == a + b[..|b| - 1];
      OutcomesAppend(a, b[..|b| - 1], g);
    }
  }

  ghost predicate NotRead(events: seq<DerivedEvent>, table: string)
  {
    forall e | e in events :: e.source != table
  }

  ghost predicate NotStreamed(annotations: seq<Annotation>, table: string)
  {
    forall a | a in annotations :: a.name != table
  }

  lemma {:induction false} NothingHandedOn(events: seq<DerivedEvent>, table: string, d: Delivery)
    requires NotRead(events, table)
    ensures HandedOn(events, table, d) == multiset{}
  {
    if events != [] {
      assert events[|events| - 1] in events;
      NothingHandedOn(events[..|events| - 1], table, d);
    }
  }

  lemma {:induction false} NothingStreamed(annotations: seq<Annotation>, table: string, d: Delivery)
    requires NotStreamed(annotations, table)
    ensures Streamed(annotations, table, d) == multiset{}
  {
    if annotations != [] {
      assert annotations[|annotations| - 1] in annotations;
      NothingStreamed(annotations[..|annotations| - 1], table, d);
    }
  }

  /** The old events read only old local tables. */
  ghost predicate LeavesAlone(list: seq<DerivedEvent>, events: seq<DerivedEvent>, annotations: seq<Annotation>)
  {
    forall e | e in list && e.storeType.Local? :: NotRead(events, e.target) && NotStreamed(annotations, e.target)
  }

  lemma {:induction false} OutcomesStable(list: seq<DerivedEvent>, g: Graph, events: seq<DerivedEvent>, annotations: seq<Annotation>)
    requires LeavesAlone(list, events, annotations)
    ensures Outcomes(list, Extend(g, events, annotations)) == Outcomes(list, g)
  {
    if list != [] {
      var e := list[|list| - 1];
      assert e in list;
      OutcomesStable(list[..|list| - 1], g, events, annotations);
      OutcomeStable(e, g, events, annotations);
    }
  }

  lemma OutcomeStable(e: DerivedEvent, g: Graph, events: seq<DerivedEvent>, annotations: seq<Annotation>)
    requires e.storeType.Local? ==> NotRead(events, e.target) && NotStreamed(annotations, e.target)
    ensures Outcome(e, Extend(g, events, annotations)) == Outcome(e, g)
  {
    if e.storeType.Local? {
      HandedOnAppend(g.events, events, e.target, InTransit(e));
      StreamedAppend(g.annotations, annotations, e.target, InTransit(e));
      NothingHandedOn(events, e.target, InTransit(e));
      NothingStreamed(annotations, e.target, InTransit(e));
    }
  }

  lemma {:induction false} SinkPartsRead(cfg: SinkMap, interval: string, sinks: seq<string>, table: string)
    ensures forall e | e in SinkEvents(cfg, interval, sinks, table) :: e.source == table && e.storeType.JsonBlob?
    ensures forall a | a in SinkAnnotations(cfg, sinks, table) :: a.name == table
  {
    if sinks != [] {
      SinkPartsRead(cfg, interval, sinks[..|sinks| - 1], table);
    }
  }

  lemma HandedOnOne(e: DerivedEvent, table: string, d: Delivery)
    ensures HandedOn([e], table, d) == HandsOn(e, table, d) && HandedOn([], table, d) == multiset{}
  {
    assert [e][..0] == [];
  }

  lemma StreamedOne(a: Annotation, table: string, d: Delivery)
    ensures Streamed([a], table, d) == (if a.name == table then multiset{d.(to := EventHub(a.url))} else multiset{})
    ensures Streamed([], table, d) == multiset{}
  {
    assert [a][..0] == [];
  }

  lemma SinkReceives(cfg: SinkMap, name: string, p: Pair, table: string)
    ensures var d := Delivery(STORAGE + p.plugin, p.interval, Table(table), 1);
            HandedOn(SinkEvent(cfg, p.interval, name, table), table, d) + Streamed(SinkAnnotation(cfg, name, table), table, d)
            == SinkWanted(cfg, name, p)
  {
    var d := Delivery(STORAGE + p.plugin, p.interval, Table(table), 1);
    HandedOnOne(DerivedEvent(p.interval, table, name, JsonBlob, false), table, d);
    ResolvedBlob(cfg, name);
    match Resolve(cfg, name)
    case Some(EventHub(url)) => StreamedOne(Annotation(table, url), table, d);
    case _ => StreamedOne(Annotation(table, ""), table, d);
  }

  /** Behind a local table the sinks receive what is wanted of them. */
  lemma {:induction false} SinksReceive(cfg: SinkMap, sinks: seq<string>, p: Pair, table: string)
    ensures var d := Delivery(STORAGE + p.plugin, p.interval, Table(table), 1);
            HandedOn(SinkEvents(cfg, p.interval, sinks, table), table, d) + Streamed(SinkAnnotations(cfg, sinks, table), table, d)
            == SinksWanted(cfg, sinks, p)
  {
    if sinks != [] {
      var init, name := sinks[..|sinks| - 1], sinks[|sinks| - 1];
      var d := Delivery(STORAGE + p.plugin, p.interval, Table(table), 1);
      SinksReceive(cfg, init, p, table);
      SinkReceives(cfg, name, p, table);
      SinkPartsAdd(cfg, sinks, p.interval, table, d);
      Shuffle(HandedOn(SinkEvents(cfg, p.interval, init, table), table, d),
              HandedOn(SinkEvent(cfg, p.interval, name, table), table, d),
              Streamed(SinkAnnotations(cfg, init, table), table, d),
              Streamed(SinkAnnotation(cfg, name, table), table, d));
    }
  }

  lemma SinkPartsAdd(cfg: SinkMap, sinks: seq<string>, interval: string, table: string, d: Delivery)
    requires sinks != []
    ensures var init, name := sinks[..|sinks| - 1], sinks[|sinks| - 1];
            && HandedOn(SinkEvents(cfg, interval, sinks, table), table, d)
               == HandedOn(SinkEvents(cfg, interval, init, table), table, d) + HandedOn(SinkEvent(cfg, interval, name, table), table, d)
            && Streamed(SinkAnnotations(cfg, sinks, table), table, d)
               == Streamed(SinkAnnotations(cfg, init, table), table, d) + Streamed(SinkAnnotation(cfg, name, table), table, d)
  {
    var init, name := sinks[..|sinks| - 1], sinks[|sinks| - 1];
    HandedOnAppend(SinkEvents(cfg, interval, init, table), SinkEvent(cfg, interval, name, table), table, d);
    StreamedAppend(SinkAnnotations(cfg, init, table), SinkAnnotation(cfg, name, table), table, d);
  }

  lemma Shuffle(a: multiset<Delivery>, b: multiset<Delivery>, c: multiset<Delivery>, d: multiset<Delivery>)
    ensures (a + b) + (c + d) == (a + c) + (b + d)
  {
  }

  lemma StorageIsNotLocal(plugin: string, n: nat)
    ensures STORAGE + plugin != UniqueName(LOCAL, n)
    ensures !StartsWith(UniqueName(LOCAL, n), STORAGE)
    ensures StartsWith(STORAGE + plugin, STORAGE)
  {
    assert (STORAGE + plugin)[0] == 's' && UniqueName(LOCAL, n)[0] == 'a';
  }

  lemma {:induction false} NoOutcomes(events: seq<DerivedEvent>, g: Graph)
    requires forall e | e in events :: !StartsWith(e.source, STORAGE)
    ensures Outcomes(events, g) == multiset{}
  {
    if events != [] {
      assert events[|events| - 1] in events;
      NoOutcomes(events[..|events| - 1], g);
    }
  }

  /** One of the local names made so far. */
  ghost predicate Made(name: string, names: nat)
  {
    exists k: nat | 1 <= k <= names :: name == UniqueName(LOCAL, k)
  }

  /** Local tables have made names; everything else reads and streams those or reads storage tables. */
  ghost predicate WellNamed(c: Compiled)
  {
    && (forall e | e in c.graph.events :: StartsWith(e.source, STORAGE) || Made(e.source, c.names))
    && (forall e | e in c.graph.events && e.storeType.Local? :: Made(e.target, c.names))
    && (forall a | a in c.graph.annotations :: Made(a.name, c.names))
  }

  lemma MadeNames(name: string, names: nat, plugin: string)
    requires Made(name, names)
    ensures name != STORAGE + plugin && name != UniqueName(LOCAL, names + 1)
    ensures Made(name, names + 1) && !StartsWith(name, STORAGE)
  {
    var k: nat :| 1 <= k <= names && name == UniqueName(LOCAL, k);
    StorageIsNotLocal(plugin, k);
    if name == UniqueName(LOCAL, names + 1) {
      UniqueNames(LOCAL, k, names + 1);
    }
  }

  /** The two fixed events of a block hand the aggregated data on to the WAD table. */
  lemma LocalEventsHandOn(p: Pair, local: string)
    requires local != STORAGE + p.plugin
    ensures var d := Delivery(STORAGE + p.plugin, p.interval, Table(local), 1);
            HandedOn(LocalEvents(p, local), local, d) == multiset{d.(to := Table(WadTableName(p.interval)))}
  {
    var e, d := LocalEvents(p, local), Delivery(STORAGE + p.plugin, p.interval, Table(local), 1);
    HandedOnAppend([e[0]], [e[1]], local, d);
    HandedOnOne(e[0], local, d);
    HandedOnOne(e[1], local, d);
    assert [e[0]] + [e[1]] == e;
  }

  /** Only the block itself hands on from, or streams, its fresh local table. */
  lemma BlockHandsOn(g: Graph, fixed: seq<DerivedEvent>, more: seq<DerivedEvent>, hubs: seq<Annotation>, local: string, d: Delivery)
    requires NotRead(g.events, local) && NotStreamed(g.annotations, local)
    ensures var g' := Extend(g, fixed + more, hubs);
            && HandedOn(g'.events, local, d) == HandedOn(fixed, local, d) + HandedOn(more, local, d)
            && Streamed(g'.annotations, local, d) == Streamed(hubs, local, d)
  {
    HandedOnAppend(g.events, fixed + more, local, d);
    HandedOnAppend(fixed, more, local, d);
    StreamedAppend(g.annotations, hubs, local, d);
    NothingHandedOn(g.events, local, d);
    NothingStreamed(g.annotations, local, d);
  }

  /** A block with a fresh local table delivers what is wanted, whatever the graph it is added to. */
  lemma BlockDelivers(g: Graph, cfg: SinkMap, sinks: seq<string>, p: Pair, local: string)
    requires NotRead(g.events, local) && NotStreamed(g.annotations, local) && local != STORAGE + p.plugin
    ensures var e := LocalEvents(p, local)[0];
            Outcome(e, Extend(g, LocalEvents(p, local) + SinkEvents(cfg, p.interval, sinks, local), SinkAnnotations(cfg, sinks, local)))
            == Wanted(cfg, sinks, p)
  {
    var d := Delivery(STORAGE + p.plugin, p.interval, Table(local), 1);
    StorageIsNotLocal(p.plugin, 0);
    BlockHandsOn(g, LocalEvents(p, local), SinkEvents(cfg, p.interval, sinks, local), SinkAnnotations(cfg, sinks, local), local, d);
    LocalEventsHandOn(p, local);
    SinksReceive(cfg, sinks, p, local);
  }

  lemma FirstOutcome(e: DerivedEvent, rest: seq<DerivedEvent>, g: Graph)
    requires forall r | r in rest :: !StartsWith(r.source, STORAGE)
    ensures Outcomes([e] + rest, g) == Outcome(e, g)
  {
    OutcomesAppend([e], rest, g);
    NoOutcomes(rest, g);
    assert [e][..0] == [];
  }

  /** Of new events that leave the old local tables alone, only the one that reads storage delivers. */
  lemma ExtendDelivers(g: Graph, e: DerivedEvent, rest: seq<DerivedEvent>, annotations: seq<Annotation>)
    requires LeavesAlone(g.events, [e] + rest, annotations)
    requires forall r | r in rest :: !StartsWith(r.source, STORAGE)
    ensures var g' := Extend(g, [e] + rest, annotations);
            Deliveries(g') == Deliveries(g) + Outcome(e, g')
  {
    var g' := Extend(g, [e] + rest, annotations);
    OutcomesStable(g.events, g, [e] + rest, annotations);
    OutcomesAppend(g.events, [e] + rest, g');
    FirstOutcome(e, rest, g');
  }

  /** Compiling one pair adds exactly what is wanted for it to the deliveries. */
  lemma AddPairDelivers(c: Compiled, cfg: SinkMap, sinks: seq<string>, p: Pair)
    requires WellNamed(c)
    ensures Deliveries(AddPair(c, cfg, sinks, p).graph) == Deliveries(c.graph) + Wanted(cfg, sinks, p)
  {
    OldNamesElsewhere(c, p.plugin);
    StorageIsNotLocal(p.plugin, c.names + 1);
    if sinks == [] {
      DirectDelivers(c.graph, cfg, p);
    } else {
      LocalDelivers(c.graph, cfg, sinks, p, UniqueName(LOCAL, c.names + 1));
    }
  }

  lemma DirectDelivers(g: Graph, cfg: SinkMap, p: Pair)
    requires forall e | e in g.events && e.storeType.Local? :: e.target != STORAGE + p.plugin
    requires StartsWith(STORAGE + p.plugin, STORAGE)
    ensures var e := DerivedEvent(p.interval, STORAGE + p.plugin, WadTableName(p.interval), Central, true);
            Deliveries(g.(events := g.events + [e])) == Deliveries(g) + Wanted(cfg, [], p)
  {
    var e := DerivedEvent(p.interval, STORAGE + p.plugin, WadTableName(p.interval), Central, true);
    assert [e] + [] == [e] && g.annotations + [] == g.annotations;
    ExtendDelivers(g, e, [], []);
    DirectOutcome(g.(events := g.events + [e]), cfg, p);
  }

  lemma DirectOutcome(g: Graph, cfg: SinkMap, p: Pair)
    requires StartsWith(STORAGE + p.plugin, STORAGE)
    ensures Outcome(DerivedEvent(p.interval, STORAGE + p.plugin, WadTableName(p.interval), Central, true), g) == Wanted(cfg, [], p)
  {
  }

  lemma LocalDelivers(g: Graph, cfg: SinkMap, sinks: seq<string>, p: Pair, local: string)
    requires NotRead(g.events, local) && NotStreamed(g.annotations, local)
    requires local != STORAGE + p.plugin && !StartsWith(local, STORAGE)
    requires forall e | e in g.events && e.storeType.Local? :: e.target != local && e.target != STORAGE + p.plugin
    ensures Deliveries(Extend(g, LocalEvents(p, local) + SinkEvents(cfg, p.interval, sinks, local), SinkAnnotations(cfg, sinks, local)))
            == Deliveries(g) + Wanted(cfg, sinks, p)
  {
    var fixed, more := LocalEvents(p, local), SinkEvents(cfg, p.interval, sinks, local);
    SinkPartsRead(cfg, p.interval, sinks, local);
    assert fixed + more == [fixed[0]] + ([fixed[1]] + more);
    ExtendDelivers(g, fixed[0], [fixed[1]] + more, SinkAnnotations(cfg, sinks, local));
    BlockDelivers(g, cfg, sinks, p, local);
  }

  lemma OldNamesElsewhere(c: Compiled, plugin: string)
    requires WellNamed(c)
    ensures var next := UniqueName(LOCAL, c.names + 1);
            && (forall e | e in c.graph.events :: e.source != next)
            && (forall e | e in c.graph.events && e.storeType.Local? :: e.target != next && e.target != STORAGE + plugin)
            && (forall a | a in c.graph.annotations :: a.name != next)
  {
    var next := UniqueName(LOCAL, c.names + 1);
    StorageIsNotLocal(plugin, c.names + 1);
    forall e | e in c.graph.events ensures e.source != next {
      if Made(e.source, c.names) { MadeNames(e.source, c.names, plugin); }
    }
    forall e | e in c.graph.events && e.storeType.Local? ensures e.target != next && e.target != STORAGE + plugin {
      MadeNames(e.target, c.names, plugin);
    }
    forall a | a in c.graph.annotations ensures a.name != next {
      MadeNames(a.name, c.names, plugin);
    }
  }

  lemma AddPairNames(c: Compiled, cfg: SinkMap, sinks: seq<string>, p: Pair)
    requires WellNamed(c)
    ensures WellNamed(AddPair(c, cfg, sinks, p))
  {
    var r := AddPair(c, cfg, sinks, p);
    StorageIsNotLocal(p.plugin, 0);
    if sinks != [] {
      var local := UniqueName(LOCAL, r.names);
      assert Made(local, r.names);
      SinkPartsRead(cfg, p.interval, sinks, local);
      forall e | e in c.graph.events && Made(e.source, c.names) ensures Made(e.source, r.names) {
        MadeNames(e.source, c.names, p.plugin);
      }
      forall e | e in c.graph.events && e.storeType.Local? ensures Made(e.target, r.names) {
        MadeNames(e.target, c.names, p.plugin);
      }
      forall a | a in c.graph.annotations ensures Made(a.name, r.names) {
        MadeNames(a.name, c.names, p.plugin);
      }
    }
  }

  /**
   End to end, and whether or not the data passes through local tables: the compiled graph delivers
   what the graph before did and what the settings ask for, nothing more and nothing twice.
   */
  lemma {:induction false} CompileDelivers(c: Compiled, cfg: SinkMap, sinks: seq<string>, pairs: seq<Pair>)
    requires WellNamed(c)
    ensures WellNamed(AddPairs(c, cfg, sinks, pairs))
    ensures Deliveries(AddPairs(c, cfg, sinks, pairs).graph) == Deliveries(c.graph) + AllWanted(cfg, sinks, pairs)
  {
    if pairs != [] {
      var init := pairs[..|pairs| - 1];
      CompileDelivers(c, cfg, sinks, init);
      AddPairNames(AddPairs(c, cfg, sinks, init), cfg, sinks, pairs[|pairs| - 1]);
      AddPairDelivers(AddPairs(c, cfg, sinks, init), cfg, sinks, pairs[|pairs| - 1]);
    }
  }

  // ---------- Consequences ----------

  const EMPTY: Graph := Graph([], [])

  lemma {:induction false} WantedSource(cfg: SinkMap, sinks: seq<string>, p: Pair, d: Delivery)
    ensures d in Wanted(cfg, sinks, p) ==> d.source == STORAGE + p.plugin && d.interval == p.interval && d.queries == 1
  {
    if sinks != [] {
      WantedSource(cfg, sinks[..|sinks| - 1], p, d);
    }
  }

  lemma {:induction false} WantedAlone(cfg: SinkMap, sinks: seq<string>, pairs: seq<Pair>, k: nat, d: Delivery)
    requires k < |pairs| && DistinctPairs(pairs)
    requires d.source == STORAGE + pairs[k].plugin && d.interval == pairs[k].interval
    ensures AllWanted(cfg, sinks, pairs)[d] == Wanted(cfg, sinks, pairs[k])[d]
  {
    var init, last := pairs[..|pairs| - 1], pairs[|pairs| - 1];
    if k == |pairs| - 1 {
      NotWantedOfOthers(cfg, sinks, init, last, d);
    } else {
      WantedAlone(cfg, sinks, init, k, d);
      assert pairs[k] != last;
      OtherPair(cfg, sinks, last, pairs[k], d);
    }
  }

  lemma StorageInjective(a: string, b: string)
    requires STORAGE + a == STORAGE + b
    ensures a == b
  {
    assert (STORAGE + a)[|STORAGE|..] == a && (STORAGE + b)[|STORAGE|..] == b;
  }

  lemma OtherPair(cfg: SinkMap, sinks: seq<string>, p: Pair, q: Pair, d: Delivery)
    requires p != q && d.source == STORAGE + q.plugin && d.interval == q.interval
    ensures Wanted(cfg, sinks, p)[d] == 0
  {
    WantedSource(cfg, sinks, p, d);
    if STORAGE + p.plugin == STORAGE + q.plugin {
      StorageInjective(p.plugin, q.plugin);
    }
  }

  lemma {:induction false} NotWantedOfOthers(cfg: SinkMap, sinks: seq<string>, pairs: seq<Pair>, q: Pair, d: Delivery)
    requires q !in pairs && d.source == STORAGE + q.plugin && d.interval == q.interval
    ensures AllWanted(cfg, sinks, pairs)[d] == 0
  {
    if pairs != [] {
      NotWantedOfOthers(cfg, sinks, pairs[..|pairs| - 1], q, d);
      OtherPair(cfg, sinks, pairs[|pairs| - 1], q, d);
    }
  }

  predicate Distinct(names: seq<string>)
  {
    forall i, j | 0 <= i < j < |names| :: names[i] != names[j]
  }

  predicate DistinctPairs(pairs: seq<Pair>)
  {
    forall i, j | 0 <= i < j < |pairs| :: pairs[i] != pairs[j]
  }

  lemma {:induction false} PairsPlugins(plugins: seq<string>, intervals: seq<string>)
    ensures forall i | 0 <= i < |Pairs(plugins, intervals)| :: Pairs(plugins, intervals)[i].plugin in plugins
  {
    if plugins != [] {
      var init, last := plugins[..|plugins| - 1], plugins[|plugins| - 1];
      PairsPlugins(init, intervals);
      var all, before := Pairs(plugins, intervals), |Pairs(init, intervals)|;
      forall i | 0 <= i < |all| ensures all[i].plugin in plugins {
        assert i >= before ==> all[i].plugin == last;
        assert i < before ==> all[i] == Pairs(init, intervals)[i];
      }
    }
  }

  lemma DistinctSum(a: seq<Pair>, b: seq<Pair>, last: string)
    requires DistinctPairs(a) && DistinctPairs(b)
    requires forall i | 0 <= i < |a| :: a[i].plugin != last
    requires forall i | 0 <= i < |b| :: b[i].plugin == last
    ensures DistinctPairs(a + b)
  {
  }

  lemma {:induction false} PairsDistinct(plugins: seq<string>, intervals: seq<string>)
    requires Distinct(plugins) && Distinct(intervals)
    ensures DistinctPairs(Pairs(plugins, intervals))
  {
    if plugins != [] {
      var init, last := plugins[..|plugins| - 1], plugins[|plugins| - 1];
      PairsDistinct(init, intervals);
      PairsPlugins(init, intervals);
      assert last !in init;
      DistinctSum(Pairs(init, intervals), PairsOf(last, intervals), last);
    }
  }

  lemma {:induction false} PairsHold(plugins: seq<string>, intervals: seq<string>, p: Pair)
    requires p.plugin in plugins && p.interval in intervals
    ensures p in Pairs(plugins, intervals)
  {
    var init, last := plugins[..|plugins| - 1], plugins[|plugins| - 1];
    if p.plugin == last {
      var i :| 0 <= i < |intervals| && intervals[i] == p.interval;
      assert PairsOf(last, intervals)[i] == p;
    } else {
      PairsHold(init, intervals, p);
    }
  }

  /**
   For distinct plugins and intervals, each pair reaches its WAD table exactly once and each sink
   exactly as often as a listed name resolves to it.
   */
  lemma EachPairReaches(cfg: SinkMap, sinks: seq<string>, plugins: seq<string>, intervals: seq<string>, names: nat, p: Pair, to: Destination)
    requires Distinct(plugins) && Distinct(intervals) && p.plugin in plugins && p.interval in intervals
    ensures var g := AddPairs(Compiled(EMPTY, names), cfg, sinks, Pairs(plugins, intervals)).graph;
            var d := Delivery(STORAGE + p.plugin, p.interval, to, 1);
            && Deliveries(g)[d] == (if to == Table(WadTableName(p.interval)) then 1 else 0) + Listings(cfg, sinks, to)
            && (to.Table? ==> Listings(cfg, sinks, to) == 0)
  {
    var pairs := Pairs(plugins, intervals);
    var d := Delivery(STORAGE + p.plugin, p.interval, to, 1);
    CompileDelivers(Compiled(EMPTY, names), cfg, sinks, pairs);
    PairsDistinct(plugins, intervals);
    PairsHold(plugins, intervals, p);
    var k :| 0 <= k < |pairs| && pairs[k] == p;
    WantedAlone(cfg, sinks, pairs, k, d);
    ListingsWanted(cfg, sinks, p, to);
  }

  /** How many of the listed names resolve to a destination. */
  function Listings(cfg: SinkMap, sinks: seq<string>, to: Destination): nat
  {
    if sinks == [] then 0
    else Listings(cfg, sinks[..|sinks| - 1], to) + (if Resolve(cfg, sinks[|sinks| - 1]) == Some(to) then 1 else 0)
  }

  lemma {:induction false} ListingsWanted(cfg: SinkMap, sinks: seq<string>, p: Pair, to: Destination)
    ensures SinksWanted(cfg, sinks, p)[Delivery(STORAGE + p.plugin, p.interval, to, 1)] == Listings(cfg, sinks, to)
    ensures to.Table? ==> Listings(cfg, sinks, to) == 0
  {
    if sinks != [] {
      ListingsWanted(cfg, sinks[..|sinks| - 1], p, to);
      ResolvedBlob(cfg, sinks[|sinks| - 1]);
    }
  }

  /** The listings that define an EventHub sink with this URL. */
  function HubListings(cfg: SinkMap, sinks: seq<string>, url: string): set<int>
  {
    set k | 0 <= k < |sinks| && sinks[k] in cfg && cfg[sinks[k]].kind == "EventHub" && cfg[sinks[k]].sasUrl == Some(url)
  }

  /** The listings of this name, if it is defined as a JsonBlob sink. */
  function BlobListings(cfg: SinkMap, sinks: seq<string>, name: string): set<int>
  {
    set k | 0 <= k < |sinks| && sinks[k] == name && name in cfg && cfg[name].kind == "JsonBlob"
  }

  lemma {:induction false} HubListingsAre(cfg: SinkMap, sinks: seq<string>, url: string)
    ensures Listings(cfg, sinks, EventHub(url)) == |HubListings(cfg, sinks, url)|
  {
    if sinks != [] {
      var n := |sinks| - 1;
      HubListingsAre(cfg, sinks[..n], url);
      if Resolve(cfg, sinks[n]) == Some(EventHub(url)) {
        assert HubListings(cfg, sinks, url) == HubListings(cfg, sinks[..n], url) + {n};
      } else {
        assert HubListings(cfg, sinks, url) == HubListings(cfg, sinks[..n], url);
      }
    }
  }

  lemma {:induction false} BlobListingsAre(cfg: SinkMap, sinks: seq<string>, name: string)
    ensures Listings(cfg, sinks, Blob(name)) == |BlobListings(cfg, sinks, name)|
  {
    if sinks != [] {
      var n := |sinks| - 1;
      BlobListingsAre(cfg, sinks[..n], name);
      if Resolve(cfg, sinks[n]) == Some(Blob(name)) {
        assert BlobListings(cfg, sinks, name) == BlobListings(cfg, sinks[..n], name) + {n};
      } else {
        assert BlobListings(cfg, sinks, name) == BlobListings(cfg, sinks[..n], name);
      }
    }
  }

  lemma {:induction false} PairsIntervals(plugins: seq<string>, intervals: seq<string>)
    ensures forall i | 0 <= i < |Pairs(plugins, intervals)| :: Pairs(plugins, intervals)[i].interval in intervals
  {
    if plugins != [] {
      var init, last := plugins[..|plugins| - 1], plugins[|plugins| - 1];
      PairsIntervals(init, intervals);
      var all, before := Pairs(plugins, intervals), |Pairs(init, intervals)|;
      forall i | 0 <= i < |all| ensures all[i].interval in intervals {
        assert i >= before ==> all[i] == PairsOf(last, intervals)[i - before];
        assert i < before ==> all[i] == Pairs(init, intervals)[i];
      }
    }
  }

  /** Nothing is wanted but the data of a listed pair, aggregated once. */
  lemma {:induction false} WantedOfSome(cfg: SinkMap, sinks: seq<string>, pairs: seq<Pair>, d: Delivery) returns (k: nat)
    ensures AllWanted(cfg, sinks, pairs)[d] > 0 ==>
      k < |pairs| && d.queries == 1 && d.source == STORAGE + pairs[k].plugin && d.interval == pairs[k].interval
  {
    k := 0;
    if pairs != [] {
      k := WantedOfSome(cfg, sinks, pairs[..|pairs| - 1], d);
      WantedSum(cfg, sinks, pairs, d);
      if AllWanted(cfg, sinks, pairs[..|pairs| - 1])[d] == 0 {
        k := |pairs| - 1;
      }
    }
  }

  lemma WantedSum(cfg: SinkMap, sinks: seq<string>, pairs: seq<Pair>, d: Delivery)
    requires pairs != []
    ensures var last := pairs[|pairs| - 1];
            && AllWanted(cfg, sinks, pairs)[d] == AllWanted(cfg, sinks, pairs[..|pairs| - 1])[d] + Wanted(cfg, sinks, last)[d]
            && (Wanted(cfg, sinks, last)[d] > 0 ==>
                  d.queries == 1 && d.source == STORAGE + last.plugin && d.interval == last.interval)
  {
    WantedSource(cfg, sinks, pairs[|pairs| - 1], d);
  }

  /** The delivery is data of a plugin asked for, at an interval asked for, aggregated once. */
  ghost predicate AskedFor(plugins: seq<string>, intervals: seq<string>, d: Delivery)
  {
    d.queries == 1 && d.interval in intervals && exists plugin | plugin in plugins :: d.source == "storage-" + plugin
  }

  /** How often the settings name a destination. */
  function Named(cfg: SinkMap, sinks: seq<string>, d: Delivery): nat
  {
    match d.to
    case Table(name) => if name == "WADMetrics" + d.interval + "P10DV2S" then 1 else 0
    case EventHub(url) => |HubListings(cfg, sinks, url)|
    case Blob(name) => |BlobListings(cfg, sinks, name)|
  }

  /**
   For distinct plugins and intervals, everything that is delivered: the data of each plugin at each
   interval goes once to the WAD table of the interval, to the hub behind a URL once for each listing
   of an EventHub sink with it, and to a blob once for each listing of a JsonBlob sink by its name.
   Undefined sinks, sinks of other types and hubs without a URL get nothing.
   */
  lemma RoutesExactly(cfg: SinkMap, sinks: seq<string>, plugins: seq<string>, intervals: seq<string>, names: nat, d: Delivery)
    requires Distinct(plugins) && Distinct(intervals)
    ensures Deliveries(AddPairs(Compiled(EMPTY, names), cfg, sinks, Pairs(plugins, intervals)).graph)[d]
            == if AskedFor(plugins, intervals, d) then Named(cfg, sinks, d) else 0
  {
    if AskedFor(plugins, intervals, d) {
      var plugin :| plugin in plugins && d.source == "storage-" + plugin;
      EachPairReaches(cfg, sinks, plugins, intervals, names, Pair(plugin, d.interval), d.to);
      assert d == Delivery(STORAGE + plugin, d.interval, d.to, 1);
      match d.to
      case Table(_) =>
      case EventHub(url) => HubListingsAre(cfg, sinks, url);
      case Blob(name) => BlobListingsAre(cfg, sinks, name);
    } else {
      NothingElse(cfg, sinks, plugins, intervals, names, d);
    }
  }

  lemma NothingElse(cfg: SinkMap, sinks: seq<string>, plugins: seq<string>, intervals: seq<string>, names: nat, d: Delivery)
    requires !AskedFor(plugins, intervals, d)
    ensures Deliveries(AddPairs(Compiled(EMPTY, names), cfg, sinks, Pairs(plugins, intervals)).graph)[d] == 0
  {
    var pairs := Pairs(plugins, intervals);
    CompileDelivers(Compiled(EMPTY, names), cfg, sinks, pairs);
    var k := WantedOfSome(cfg, sinks, pairs, d);
    PairsPlugins(plugins, intervals);
    PairsIntervals(plugins, intervals);
    if k < |pairs| {
      assert pairs[k].plugin in plugins && pairs[k].interval in intervals;
    }
  }

  /** Going through local tables changes nothing: sinks that do not resolve are the same as no sinks. */
  lemma LocalTablesInvisible(c: Compiled, cfg: SinkMap, sinks: seq<string>, pairs: seq<Pair>)
    requires WellNamed(c) && forall name | name in sinks :: Resolve(cfg, name).None?
    ensures Deliveries(AddPairs(c, cfg, sinks, pairs).graph) == Deliveries(AddPairs(c, cfg, [], pairs).graph)
  {
    CompileDelivers(c, cfg, sinks, pairs);
    CompileDelivers(c, cfg, [], pairs);
    UnresolvedWanted(cfg, sinks, pairs);
  }

  lemma {:induction false} UnresolvedWanted(cfg: SinkMap, sinks: seq<string>, pairs: seq<Pair>)
    requires forall name | name in sinks :: Resolve(cfg, name).None?
    ensures AllWanted(cfg, sinks, pairs) == AllWanted(cfg, [], pairs)
  {
    if pairs != [] {
      UnresolvedWanted(cfg, sinks, pairs[..|pairs| - 1]);
      UnresolvedSinks(cfg, sinks, pairs[|pairs| - 1]);
    }
  }

  lemma {:induction false} UnresolvedSinks(cfg: SinkMap, sinks: seq<string>, p: Pair)
    requires forall name | name in sinks :: Resolve(cfg, name).None?
    ensures SinksWanted(cfg, sinks, p) == multiset{}
  {
    if sinks != [] {
      assert sinks[|sinks| - 1] in sinks;
      UnresolvedSinks(cfg, sinks[..|sinks| - 1], p);
    }
  }

  // ---------- Size and separation ----------

  function BlobCount(cfg: SinkMap, sinks: seq<string>): nat
  {
    if sinks == [] then 0
    else
      var r := Resolve(cfg, sinks[|sinks| - 1]);
      BlobCount(cfg, sinks[..|sinks| - 1]) + (if r.Some? && r.value.Blob? then 1 else 0)
  }

  lemma {:induction false} SinkEventCount(cfg: SinkMap, interval: string, sinks: seq<string>, table: string)
    ensures |SinkEvents(cfg, interval, sinks, table)| == BlobCount(cfg, sinks)
  {
    if sinks != [] {
      SinkEventCount(cfg, interval, sinks[..|sinks| - 1], table);
    }
  }

  lemma {:induction false} EventCount(c: Compiled, cfg: SinkMap, sinks: seq<string>, pairs: seq<Pair>)
    ensures |AddPairs(c, cfg, sinks, pairs).graph.events|
            == |c.graph.events| + |pairs| * (if sinks == [] then 1 else 2 + BlobCount(cfg, sinks))
  {
    if pairs != [] {
      var init, last := pairs[..|pairs| - 1], pairs[|pairs| - 1];
      var c1 := AddPairs(c, cfg, sinks, init);
      EventCount(c, cfg, sinks, init);
      SinkEventCount(cfg, last.interval, sinks, UniqueName(LOCAL, c1.names + 1));
      OnePairEvents(c1, cfg, sinks, last);
      Distribute(|init|, if sinks == [] then 1 else 2 + BlobCount(cfg, sinks));
    }
  }

  lemma Distribute(n: nat, m: nat)
    ensures (n + 1) * m == n * m + m
  {
  }

  lemma OnePairEvents(c: Compiled, cfg: SinkMap, sinks: seq<string>, p: Pair)
    ensures |AddPair(c, cfg, sinks, p).graph.events|
            == |c.graph.events| + (if sinks == [] then 1 else 2 + BlobCount(cfg, sinks))
  {
    SinkEventCount(cfg, p.interval, sinks, UniqueName(LOCAL, c.names + 1));
  }

  lemma {:induction false} PairCount(plugins: seq<string>, intervals: seq<string>)
    ensures |Pairs(plugins, intervals)| == |plugins| * |intervals|
  {
    if plugins != [] {
      PairCount(plugins[..|plugins| - 1], intervals);
      Distribute(|plugins| - 1, |intervals|);
    }
  }

  /** The listings of sinks that are defined as JsonBlob sinks. */
  function JsonBlobs(cfg: SinkMap, sinks: seq<string>): set<int>
  {
    set k | 0 <= k < |sinks| && sinks[k] in cfg && cfg[sinks[k]].kind == "JsonBlob"
  }

  lemma {:induction false} BlobCountIs(cfg: SinkMap, sinks: seq<string>)
    ensures BlobCount(cfg, sinks) == |JsonBlobs(cfg, sinks)|
  {
    if sinks != [] {
      var n := |sinks| - 1;
      BlobCountIs(cfg, sinks[..n]);
      if sinks[n] in cfg && cfg[sinks[n]].kind == "JsonBlob" {
        assert JsonBlobs(cfg, sinks) == JsonBlobs(cfg, sinks[..n]) + {n};
      } else {
        assert JsonBlobs(cfg, sinks) == JsonBlobs(cfg, sinks[..n]);
      }
    }
  }

  /** P plugins and I intervals make P * I derived events, or that many times two and one for each JsonBlob. */
  lemma DerivedEventCount(cfg: SinkMap, sinks: seq<string>, plugins: seq<string>, intervals: seq<string>, names: nat)
    ensures |AddPairs(Compiled(EMPTY, names), cfg, sinks, Pairs(plugins, intervals)).graph.events|
            == |plugins| * |intervals| * (if sinks == [] then 1 else 2 + |JsonBlobs(cfg, sinks)|)
  {
    BlobCountIs(cfg, sinks);
    PairCount(plugins, intervals);
    EventCount(Compiled(EMPTY, names), cfg, sinks, Pairs(plugins, intervals));
  }

  /** No two events fill the same local table, so local tables never mix two sources. */
  ghost predicate LocalTargetsDiffer(events: seq<DerivedEvent>)
  {
    forall i, j | 0 <= i < j < |events| && events[i].storeType.Local? && events[j].storeType.Local? ::
      events[i].target != events[j].target
  }

  lemma {:induction false} LocalTablesUnmixed(c: Compiled, cfg: SinkMap, sinks: seq<string>, pairs: seq<Pair>)
    requires WellNamed(c) && LocalTargetsDiffer(c.graph.events)
    ensures LocalTargetsDiffer(AddPairs(c, cfg, sinks, pairs).graph.events)
  {
    if pairs != [] {
      var init, last := pairs[..|pairs| - 1], pairs[|pairs| - 1];
      var c1 := AddPairs(c, cfg, sinks, init);
      LocalTablesUnmixed(c, cfg, sinks, init);
      CompileDelivers(c, cfg, sinks, init);
      AddPairUnmixed(c1, cfg, sinks, last);
    }
  }

  lemma AddPairUnmixed(c: Compiled, cfg: SinkMap, sinks: seq<string>, p: Pair)
    requires WellNamed(c) && LocalTargetsDiffer(c.graph.events)
    ensures LocalTargetsDiffer(AddPair(c, cfg, sinks, p).graph.events)
  {
    OldNamesElsewhere(c, p.plugin);
    if sinks == [] {
      OneMoreLocal(c.graph.events, [DerivedEvent(p.interval, STORAGE + p.plugin, WadTableName(p.interval), Central, true)]);
    } else {
      var local := UniqueName(LOCAL, c.names + 1);
      var block := LocalEvents(p, local) + SinkEvents(cfg, p.interval, sinks, local);
      SinkPartsRead(cfg, p.interval, sinks, local);
      forall k | 0 < k < |block| ensures !block[k].storeType.Local? {
        assert k > 1 ==> block[k] in SinkEvents(cfg, p.interval, sinks, local);
      }
      OneMoreLocal(c.graph.events, block);
    }
  }

  lemma OneMoreLocal(events: seq<DerivedEvent>, more: seq<DerivedEvent>)
    requires LocalTargetsDiffer(events)
    requires forall k | 0 < k < |more| :: !more[k].storeType.Local?
    requires more != [] && more[0].storeType.Local? ==>
      forall e | e in events && e.storeType.Local? :: e.target != more[0].target
    ensures LocalTargetsDiffer(events + more)
  {
  }
}
