/** metrics_server/routes.py: `Route` holds the routes table and the metric
    data, each loaded from its own file by `load_data`. The outcome of reading
    and parsing a file is a parameter: `None` when opening or parsing failed,
    `Some(d)` with the parsed dictionary otherwise. What the logger receives is
    kept as a ghost trace of events. */
module Routes {
  import opened JsonValues

  /** Which of the two maps a log event is about. */
  datatype Store = RoutesConfig | MetricData

  /** `logger.info("Loaded ...")` with the names loaded, or `logger.error("Failed ...")`. */
  datatype LogEvent = Announced(store: Store, names: set<string>) | LoadFailed(store: Store)

  /** The map after one load attempt: the parsed content on success (it
      replaces the previous map whole), the empty map on failure. */
  function Reloaded(outcome: Option<Dict>): Dict
  {
    if outcome.Some? then outcome.value else map[]
  }

  /** The events one load attempt of `store` logs, given the map it held before. */
  function LoadEvents(store: Store, previous: Dict, outcome: Option<Dict>): (events: seq<LogEvent>)
    ensures |events| <= 1
    ensures outcome.None? <==> events == [LoadFailed(store)]
    ensures outcome.Some? && previous == map[] ==> events == [Announced(store, outcome.value.Keys)]
    ensures outcome.Some? && previous != map[] ==> events == []
  {
    match outcome
    case None => [LoadFailed(store)]
    case Some(loaded) => if previous == map[] then [Announced(store, loaded.Keys)] else []
  }

  /** The events logged for `store` by the load attempts `outcomes`, in
      order, starting from a map `previous`. */
  function ReplayEvents(store: Store, previous: Dict, outcomes: seq<Option<Dict>>): seq<LogEvent>
    decreases |outcomes|
  {
    if outcomes == [] then []
    else LoadEvents(store, previous, outcomes[0]) + ReplayEvents(store, Reloaded(outcomes[0]), outcomes[1..])
  }

  /** Announced only on the first load: when every attempt succeeds with a
      non-empty map, the load is announced once if the map started empty and
      never otherwise. */
  lemma {:induction false} AnnouncedOnlyOnFirstLoad(store: Store, previous: Dict, outcomes: seq<Option<Dict>>)
    requires outcomes != []
    requires forall i :: 0 <= i < |outcomes| ==> outcomes[i].Some? && outcomes[i].value != map[]
    ensures ReplayEvents(store, previous, outcomes) ==
              if previous == map[] then [Announced(store, outcomes[0].value.Keys)] else []
    decreases |outcomes|
  {
    if |outcomes| > 1 {
      AnnouncedOnlyOnFirstLoad(store, outcomes[0].value, outcomes[1..]);
    }
  }

  /** After a failed load the next successful load is announced again. */
  lemma {:induction false} AnnouncedAgainAfterFailure(store: Store, previous: Dict, loaded: Dict)
    ensures ReplayEvents(store, previous, [None, Some(loaded)]) ==
              [LoadFailed(store), Announced(store, loaded.Keys)]
  {
    assert [None, Some(loaded)][1..] == [Some(loaded)];
    assert [Some(loaded)][1..] == [];
    assert ReplayEvents(store, map[], [Some(loaded)]) == [Announced(store, loaded.Keys)];
  }

  /** The map left by the load attempts `outcomes`, starting from `previous`. */
  function AfterLoads(previous: Dict, outcomes: seq<Option<Dict>>): Dict
  {
    if outcomes == [] then previous else Reloaded(outcomes[|outcomes| - 1])
  }

  /** One more load attempt appends that attempt's events to the replay. */
  lemma {:induction false} ReplayExtend(store: Store, previous: Dict, outcomes: seq<Option<Dict>>, next: Option<Dict>)
    ensures ReplayEvents(store, previous, outcomes + [next]) ==
              ReplayEvents(store, previous, outcomes) + LoadEvents(store, AfterLoads(previous, outcomes), next)
    decreases |outcomes|
  {
    if outcomes == [] {
      assert [next][1..] == [];
      assert outcomes + [next] == [next];
    } else {
      var first, rest := outcomes[0], outcomes[1..];
      calc {
        ReplayEvents(store, previous, outcomes + [next]);
        { assert (outcomes + [next])[0] == first;
          assert (outcomes + [next])[1..] == rest + [next]; }
        LoadEvents(store, previous, first) + ReplayEvents(store, Reloaded(first), rest + [next]);
        { ReplayExtend(store, Reloaded(first), rest, next); }
        LoadEvents(store, previous, first)
          + (ReplayEvents(store, Reloaded(first), rest) + LoadEvents(store, AfterLoads(Reloaded(first), rest), next));
        { assert rest != [] ==> rest[|rest| - 1] == outcomes[|outcomes| - 1];
          assert AfterLoads(Reloaded(first), rest) == AfterLoads(previous, outcomes); }
        ReplayEvents(store, previous, outcomes) + LoadEvents(store, AfterLoads(previous, outcomes), next);
      }
    }
  }

  /** The events of `log` that are about `store`, in order. */
  function EventsFor(store: Store, log: seq<LogEvent>): seq<LogEvent>
    decreases |log|
  {
    if log == [] then []
    else (if log[0].store == store then [log[0]] else []) + EventsFor(store, log[1..])
  }

  lemma {:induction false} EventsForAppend(store: Store, a: seq<LogEvent>, b: seq<LogEvent>)
    ensures EventsFor(store, a + b) == EventsFor(store, a) + EventsFor(store, b)
    decreases |a|
  {
    if a == [] {
      assert a + b == b;
    } else {
      var head := if a[0].store == store then [a[0]] else [];
      calc {
        EventsFor(store, a + b);
        { assert (a + b)[0] == a[0]; }
        head + EventsFor(store, (a + b)[1..]);
        { assert (a + b)[1..] == a[1..] + b; }
        head + EventsFor(store, a[1..] + b);
        { EventsForAppend(store, a[1..], b); }
        head + (EventsFor(store, a[1..]) + EventsFor(store, b));
        EventsFor(store, a) + EventsFor(store, b);
      }
    }
  }

  /** A load attempt of one store logs nothing about the other. */
  lemma EventsForLoad(store: Store, loaded: Store, previous: Dict, outcome: Option<Dict>)
    ensures EventsFor(store, LoadEvents(loaded, previous, outcome)) ==
              if store == loaded then LoadEvents(loaded, previous, outcome) else []
  {
  }

  class Route {
    var routes: Dict
    var metricData: Dict
    /** Everything logged by this object, oldest first. */
    ghost var log: seq<LogEvent>
    /** The outcomes of the load attempts made so far, one list per file. */
    ghost var routesLoads: seq<Option<Dict>>
    ghost var metricDataLoads: seq<Option<Dict>>

    /** Each map is what its last load left, and the part of the log about
        each map is the replay of that map's load attempts from empty. */
    ghost predicate Valid()
      reads this
    {
      Consistent(routes, metricData, log, routesLoads, metricDataLoads)
    }

    /** `Route.__init__`: both maps start empty, then `load_data` runs. */
    constructor (routesFile: Option<Dict>, metricDataFile: Option<Dict>)
      ensures Valid()
      ensures routesLoads == [routesFile] && metricDataLoads == [metricDataFile]
      ensures routes == Reloaded(routesFile)
      ensures metricData == Reloaded(metricDataFile)
      ensures log == LoadEvents(RoutesConfig, map[], routesFile) + LoadEvents(MetricData, map[], metricDataFile)
    {
      routes := map[];
      metricData := map[];
      log := [];
      routesLoads := [];
      metricDataLoads := [];
      new;
      LoadData(routesFile, metricDataFile);
    }

    /** `load_data`: two independent attempts; each replaces its own map with
        what was loaded, or empties it on failure, and logs what happened. */
    method LoadData(routesFile: Option<Dict>, metricDataFile: Option<Dict>)
      requires Valid()
      modifies this
      ensures Valid()
      ensures routesLoads == old(routesLoads) + [routesFile]
      ensures metricDataLoads == old(metricDataLoads) + [metricDataFile]
      ensures routesFile.Some? ==> routes == routesFile.value
      ensures routesFile.None? ==> routes == map[]
      ensures metricDataFile.Some? ==> metricData == metricDataFile.value
      ensures metricDataFile.None? ==> metricData == map[]
      ensures log == old(log) + LoadEvents(RoutesConfig, old(routes), routesFile)
                              + LoadEvents(MetricData, old(metricData), metricDataFile)
    {
      ghost var routesEvents := LoadEvents(RoutesConfig, routes, routesFile);
      ghost var metricDataEvents := LoadEvents(MetricData, metricData, metricDataFile);
      ConsistentAfterLoad(routes, metricData, log, routesLoads, metricDataLoads, routesFile, metricDataFile);
      match routesFile {
        case Some(loadedRoutes) =>
          if routes == map[] {
            log := log + [Announced(RoutesConfig, loadedRoutes.Keys)];
          }
          routes := loadedRoutes;
        case None =>
          log := log + [LoadFailed(RoutesConfig)];
          routes := map[];
      }
      assert log == old(log) + routesEvents;
      match metricDataFile {
        case Some(loadedMetricData) =>
          if metricData == map[] {
            log := log + [Announced(MetricData, loadedMetricData.Keys)];
          }
          metricData := loadedMetricData;
        case None =>
          log := log + [LoadFailed(MetricData)];
          metricData := map[];
      }
      assert log == old(log) + routesEvents + metricDataEvents;
      routesLoads := routesLoads + [routesFile];
      metricDataLoads := metricDataLoads + [metricDataFile];
    }

    /** `get_route`: `routes.get(metric_name)`; Python's `None` is `JNull`. */
    function GetRoute(metricName: string): (r: Json)
      reads this
      ensures metricName in routes ==> r == routes[metricName]
      ensures metricName !in routes ==> r == JNull
      ensures r == JNull <==> metricName !in routes || routes[metricName] == JNull
    {
      if metricName in routes then routes[metricName] else JNull
    }

    /** `get_routes`: the whole routes table. */
    function GetRoutes(): (r: Dict)
      reads this
      ensures r == routes
    {
      routes
    }

    /** `get_metric_data`: the whole metric data. */
    function GetMetricData(): (r: Dict)
      reads this
      ensures r == metricData
    {
      metricData
    }

    /** `get_metric_value`: `metric_data.get(metric_name)`; Python's `None` is `JNull`. */
    function GetMetricValue(metricName: string): (r: Json)
      reads this
      ensures metricName in metricData ==> r == metricData[metricName]
      ensures metricName !in metricData ==> r == JNull
      ensures r == JNull <==> metricName !in metricData || metricData[metricName] == JNull
    {
      if metricName in metricData then metricData[metricName] else JNull
    }
  }

  /** The part of the log about `store` grows, over one `load_data` call, by
      the events of that store's load attempt and by nothing else. */
  lemma {:induction false} ProjectLoad(store: Store, log: seq<LogEvent>, loads: seq<Option<Dict>>,
                                       routes: Dict, routesFile: Option<Dict>,
                                       metricData: Dict, metricDataFile: Option<Dict>)
    requires EventsFor(store, log) == ReplayEvents(store, map[], loads)
    requires AfterLoads(map[], loads) == if store == RoutesConfig then routes else metricData
    ensures EventsFor(store, log + LoadEvents(RoutesConfig, routes, routesFile)
                                 + LoadEvents(MetricData, metricData, metricDataFile))
              == ReplayEvents(store, map[], loads + [if store == RoutesConfig then routesFile else metricDataFile])
  {
    var a := LoadEvents(RoutesConfig, routes, routesFile);
    var b := LoadEvents(MetricData, metricData, metricDataFile);
    EventsForAppend(store, log + a, b);
    EventsForAppend(store, log, a);
    EventsForLoad(store, RoutesConfig, routes, routesFile);
    EventsForLoad(store, MetricData, metricData, metricDataFile);
    var next := if store == RoutesConfig then routesFile else metricDataFile;
    ReplayExtend(store, map[], loads, next);
    if store == RoutesConfig {
      assert EventsFor(store, log + a + b) == EventsFor(store, log) + a;
    } else {
      assert EventsFor(store, log + a + b) == EventsFor(store, log) + b;
    }
  }

  /** Each map is what its last load left, starting from empty, and the part
      of `log` about each map is the replay of that map's load attempts. */
  ghost predicate Consistent(routes: Dict, metricData: Dict, log: seq<LogEvent>,
                             routesLoads: seq<Option<Dict>>, metricDataLoads: seq<Option<Dict>>)
  {
    && routes == AfterLoads(map[], routesLoads)
    && metricData == AfterLoads(map[], metricDataLoads)
    && EventsFor(RoutesConfig, log) == ReplayEvents(RoutesConfig, map[], routesLoads)
    && EventsFor(MetricData, log) == ReplayEvents(MetricData, map[], metricDataLoads)
  }

  /** One `load_data` call keeps the state consistent with its load history. */
  lemma ConsistentAfterLoad(routes: Dict, metricData: Dict, log: seq<LogEvent>,
                            routesLoads: seq<Option<Dict>>, metricDataLoads: seq<Option<Dict>>,
                            routesFile: Option<Dict>, metricDataFile: Option<Dict>)
    requires Consistent(routes, metricData, log, routesLoads, metricDataLoads)
    ensures Consistent(Reloaded(routesFile), Reloaded(metricDataFile),
                       log + LoadEvents(RoutesConfig, routes, routesFile)
                           + LoadEvents(MetricData, metricData, metricDataFile),
                       routesLoads + [routesFile], metricDataLoads + [metricDataFile])
  {
    ProjectLoad(RoutesConfig, log, routesLoads, routes, routesFile, metricData, metricDataFile);
    ProjectLoad(MetricData, log, metricDataLoads, routes, routesFile, metricData, metricDataFile);
    assert AfterLoads(map[], routesLoads + [routesFile]) == Reloaded(routesFile) by {
      assert (routesLoads + [routesFile])[|routesLoads|] == routesFile;
    }
    assert AfterLoads(map[], metricDataLoads + [metricDataFile]) == Reloaded(metricDataFile) by {
      assert (metricDataLoads + [metricDataFile])[|metricDataLoads|] == metricDataFile;
    }
  }

  /** For a `Route` object whose every routes load so far succeeded with a
      non-empty table, its log holds exactly one routes announcement: the
      one of the first load, made by the constructor. */
  lemma RoutesAnnouncedOnce(route: Route)
    requires route.Valid()
    requires route.routesLoads != []
    requires forall i :: 0 <= i < |route.routesLoads| ==>
               route.routesLoads[i].Some? && route.routesLoads[i].value != map[]
    ensures EventsFor(RoutesConfig, route.log) == [Announced(RoutesConfig, route.routesLoads[0].value.Keys)]
  {
    AnnouncedOnlyOnFirstLoad(RoutesConfig, map[], route.routesLoads);
  }
}
