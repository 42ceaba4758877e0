# Metrics server registry — a Dafny model

This project models the stateful core of a small Flask metrics server. The
server looks named metrics up in maps and wraps each answer in a
`{status, data}` envelope. The model has three parts:

- **Endpoint registry** (`metrics_server/app.py`, module `App`).
  `BaseMetricsServer` maps endpoint paths to metric retrieval functions.
  `add_metric` inserts or overwrites one entry. `get_metric` answers with an
  OK envelope holding the function's result, or an Error envelope with the
  message "Endpoint not found". `MetricsServer` pre-registers
  `/deployment-frequency` and `/change-lead-time`. The GET view
  `handle_request` prefixes the requested path with `/` and turns an Error
  envelope into a 404 abort.
- **Metric handler and route table** (`metrics_server/handlers.py`, module
  `Handlers`). `MetricHandler.handle_request` looks its metric name up in the
  metric data. A missing name gets the value "Metric not found". The status
  test compares against the misspelled literal "Metri not found", so a missing
  metric is still reported with status OK. The model keeps that behaviour.
  `Routes.get_route` and `Routes.get_routes` read a table fixed at construction.
- **Route and metric-data holder** (`metrics_server/routes.py`, module
  `Routes`). `Route.load_data` loads the routes table and the metric data
  independently. A successful load replaces its map whole. A failed load
  empties only its own map. The "loaded" info line is logged only when the map
  was empty before. `get_route` and `get_metric_value` are `dict.get`
  lookups; `get_routes` and `get_metric_data` return the whole map.

Shared values live in module `JsonValues`: a `Json` datatype for what
`json.load` produces, `Dict` for string-keyed dictionaries, and `Option` for
the outcome of reading and parsing a file.

Modelling choices:

- Python has inheritance. Dafny traits are not used here, so the subclass
  `MetricsServer` is the named constructor `BaseMetricsServer.MetricsServer`.
  It runs the base initialisation and then the two `add_metric` calls. Its two
  static retrieval functions are the module functions `GetDeploymentFrequency`
  and `GetChangeLeadTime`.
- `add_metric` is a plain dictionary assignment (app.py:15), so registering
  an endpoint twice keeps the later function: last write wins.
- The registry keeps a ghost `history` of its `add_metric` calls.
  `Valid()` ties `metricsMap` to `Registered(history)`. That lets
  "last write wins" be proved for any sequence of calls.
- Fields of `MetricHandler` and `Routes` (handlers.py) are assigned only in
  their constructors, so they are `const` fields. Their handler functions need
  no `reads` clause.
- The module-level `METRIC_DATA` of handlers.py is a parameter of
  `HandleRequest`. The parsed routes file is a parameter of the `Routes`
  constructor.
- In routes.py, each file load is an `Option<Dict>` argument. `None` means
  opening or parsing failed; `Some(d)` carries the parsed dictionary. The
  logger's output is a ghost trace `log` of `LogEvent`s. `Route` also keeps
  a ghost list of each file's load outcomes. Its `Valid()` says that each
  map is what its last load left, and that the part of the log about each
  map is `ReplayEvents` of that map's outcomes. So the lemmas about
  `ReplayEvents` describe the log that successive `load_data` calls write.
- Python's `None`, returned by `dict.get` for a missing key, is the JSON null
  `JNull`. `json.load` also turns a JSON null into `None`, so the getters
  answer the same for a missing name and for a name mapped to null.
- Flask's answer is the `Reply` datatype: `Jsonified(200, body)` for
  `jsonify`, `Aborted(404, description)` for `abort`.

## Model

| member | source | states |
|---|---|---|
| `App.Registered` | metrics_server/app.py:7-15 | after a sequence of `add_metric` calls on a fresh registry, the registered endpoints are exactly those the calls named |
| `App.LastWriteWins` | metrics_server/app.py:15 | the function stored for an endpoint is the one from the last `add_metric` call naming it, whatever earlier calls registered |
| `App.BaseMetricsServer.constructor` | metrics_server/app.py:5-7 | a fresh registry has an empty endpoint map and no registrations |
| `App.BaseMetricsServer.MetricsServer` | metrics_server/app.py:29-43 | after construction exactly `/deployment-frequency` and `/change-lead-time` are registered, bound to the two static functions; their data is `{"deployment-frequency": 42}` and `{"change-lead-time": "15 minutes"}` |
| `App.BaseMetricsServer.AddMetric` | metrics_server/app.py:9-15 | the endpoint maps to the new function (overwriting any earlier one); the key set grows by that endpoint only; every other entry is unchanged; the invariant is kept |
| `App.BaseMetricsServer.GetMetric` | metrics_server/app.py:17-25 | status is OK iff the endpoint is registered, and then the envelope is exactly status plus the function's result as data; otherwise it is exactly status Error plus the message "Endpoint not found", with no data field; being a function, it changes nothing |
| `App.ServesLastRegistration` | metrics_server/app.py:15-24 | a registry built by `add_metric` calls answers OK for an endpoint, with the data of the last function registered there |
| `App.UnregisteredNotFound` | metrics_server/app.py:23-25 | a registry answers the Error envelope for an endpoint no `add_metric` call named |
| `App.HandleRequest` | metrics_server/app.py:51-61 | the view answers 404 exactly when "/" + endpoint is not registered, aborting with the description "Endpoint not found"; otherwise it answers 200 with the lookup's envelope unchanged, status OK and the function's data |
| `Handlers.MetricHandler.constructor` | metrics_server/handlers.py:23-30 | the handler keeps the metric name and the server it was given |
| `Handlers.MetricHandler.HandleRequest` | metrics_server/handlers.py:32-47 | the envelope has exactly status and data; data holds exactly `metric_name` (the handler's name) and `value`; value is the metric data's entry when present and "Metric not found" otherwise; status is Error iff the entry is present and equals "Metri not found", OK otherwise; metric data and fields are left as they were |
| `Handlers.MetricHandler.HandleRequestIntended` | metrics_server/handlers.py:42-45 | with the comparison literal corrected, the status is Error exactly when the looked-up value is "Metric not found" and OK otherwise; so a missing metric gets Error and a present metric with any other value gets OK; the data part is the same as the program's |
| `Handlers.MissingMetricReportedOk` | metrics_server/handlers.py:42-45 | for a metric absent from the data, the program's handler answers status OK with value "Metric not found", while the corrected one answers Error |
| `Handlers.Routes.constructor` | metrics_server/handlers.py:51-55 | the route table is the parsed content of the routes file |
| `Handlers.Routes.GetRoute` | metrics_server/handlers.py:57-63 | returns the route for a name when the table has it and `None` when it does not; `None` comes back exactly when the name is missing or mapped to null |
| `Handlers.Routes.GetRoutes` | metrics_server/handlers.py:65-69 | returns the full route table unchanged |
| `Routes.LoadEvents` | metrics_server/routes.py:16-38 | one load attempt logs a failure exactly when the load failed; a successful load is announced with the loaded names when the previous map was empty, and logs nothing otherwise |
| `Routes.AnnouncedOnlyOnFirstLoad` | metrics_server/routes.py:20-23 | over any run of successful loads of non-empty maps, the load is announced once if the map started empty and never if it did not |
| `Routes.AnnouncedAgainAfterFailure` | metrics_server/routes.py:20-26 | a failed load empties the map, so the next successful load is announced again |
| `Routes.ConsistentAfterLoad` | metrics_server/routes.py:12-38 | one `load_data` call keeps each map equal to what its last load left and the per-map part of the log equal to the replay of that map's loads |
| `Routes.RoutesAnnouncedOnce` | metrics_server/routes.py:20-23 | a `Route` whose routes loads have all succeeded with non-empty tables has logged exactly one routes announcement, that of its first load |
| `Routes.Route.constructor` | metrics_server/routes.py:7-10 | starting from two empty maps, construction leaves each map as its own load left it, logs both loads as first loads, and records one load outcome per file |
| `Routes.Route.LoadData` | metrics_server/routes.py:12-38 | each map independently becomes the loaded dictionary on success (replaced whole, not merged) or the empty map on failure; the log grows by that load's events, routes first; the object invariant tying maps and log to the load history is kept |
| `Routes.Route.GetRoute` | metrics_server/routes.py:40-46 | returns the route for a name when present and `None` when absent; `None` comes back exactly when the name is missing or mapped to null |
| `Routes.Route.GetRoutes` | metrics_server/routes.py:48-53 | returns the stored routes map unchanged |
| `Routes.Route.GetMetricData` | metrics_server/routes.py:55-60 | returns the stored metric data unchanged |
| `Routes.Route.GetMetricValue` | metrics_server/routes.py:62-68 | returns the metric's value when present and `None` when absent; `None` comes back exactly when the name is missing or mapped to null |

## Findings

| source | as written | input that shows it | evidently intended | confidence | as-written member | corrected member |
|---|---|---|---|---|---|---|
| metrics_server/handlers.py:42-45 | the status test compares the looked-up value with "Metri not found", but the lookup's default is "Metric not found" | a handler whose metric name is not in the metric data: status "OK", value "Metric not found" | status "Error" for a metric that is not in the data | high; not executed | `Handlers.MetricHandler.HandleRequest` (exhibited by `Handlers.MissingMetricReportedOk`) | `Handlers.MetricHandler.HandleRequestIntended` |

The comment at handlers.py:43 says the handler returns "the data or error
message", and the two literals differ by one letter. The handler class keeps
the behaviour as written. The corrected function sits beside it. Nothing in
the modelled code constructs a `MetricHandler`, and nothing else in the model
calls either function.

## Left out

- File reading and `json.load`: the module-level loads of handlers.py, the file read in `Routes.__init__` and the two opens in `load_data` are inputs to the model. `Routes.__init__` in handlers.py has no exception handler, so a missing routes file raises and no object is made; only the successful construction is modelled.
- A top-level JSON value that is not an object is not modelled; loads yield dictionaries. In `load_data`, such a value would raise at `.keys()` on a first load (and the map would be emptied), but it would be stored as is on a later load.
- JSON numbers are integers in `Json`; floating-point values are not modelled.
- Log text is not modelled: the logger's formatting, the exception message in the error lines, and the order of names in the "loaded" line. The announced names are kept as a set.
- `MetricHandler.HandleRequest`: the `console.log` call at handlers.py:40 is left out. That call renders rich markup, so a metric name holding an unmatched closing tag such as `[/x]` makes `handle_request` raise before it builds the envelope. The model assumes metric names without markup.
- Aliasing: `get_routes`, `get_metric_data` and `Routes.get_routes` return the live dictionaries, so a caller could mutate them. The model returns map values.
- Retrieval functions are total, pure `() -> Json` functions. Python would accept any callable, including ones that raise or have side effects.
- Flask plumbing (`app.route` matching, `jsonify` serialisation, the error page `abort` renders, `app.run`) is stood for by the `Reply` datatype.
- `MetricHandler.server` is stored but never used by the handler, as in the source.
- metrics_server/server.py is not part of this model. It is Flask setup, imports a `MetricsHandler` that handlers.py does not define, and passes `method=` where Flask expects `methods=`.
- metrics_server/serializer.py is not part of this model. It only wraps `jsonify`, `json.loads` and file reads and writes.
- routes.py imports `logger` from metrics_server/logger.py (routes.py:4), but logger.py defines no `logger`, only `log_request`. So routes.py as shown cannot be imported. The model assumes a working logger with `info` and `error`; the ghost `log` stands for those calls.
- metrics_server/logger.py is not part of this model. It is wall-clock timing and printing, and as written it is missing imports and uses an unbound name.
- main.py and metrics_server/config/routes.py are an entry point and a constant table; they contribute no logic.
- Concurrency, persistence after writes, merging on POST, timestamps and output escaping appear in no modelled code, so they are not modelled.
