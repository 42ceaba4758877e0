/** metrics_server/handlers.py: a per-metric request handler that reads the
    preloaded metric data, and a read-only table of routes. The module-level
    METRIC_DATA and the parsed routes file are parameters. */
module Handlers {
  import opened JsonValues
  import App

  const MetricNotFound: string := "Metric not found"
  /** The literal the status test compares against; it differs from
      MetricNotFound by one letter. */
  const MisspelledNotFound: string := "Metri not found"

  /** `MetricHandler`: both fields are set once, by the constructor. */
  class MetricHandler {
    const metricName: string
    const server: App.BaseMetricsServer

    constructor (metricName: string, server: App.BaseMetricsServer)
      ensures this.metricName == metricName && this.server == server
    {
      this.metricName := metricName;
      this.server := server;
    }

    /** The value `METRIC_DATA.get(metric_name, "Metric not found")`. */
    function LookedUpValue(metricData: Dict): Json
    {
      if metricName in metricData then metricData[metricName] else JStr(MetricNotFound)
    }

    /** `handle_request`, as written: the status is Error only when the value
        found equals the misspelled literal, so a missing metric is reported
        with status OK and the value "Metric not found". */
    function HandleRequest(metricData: Dict): (r: Dict)
      ensures r.Keys == {"status", "data"}
      ensures r["data"].JObject? && r["data"].fields.Keys == {"metric_name", "value"}
      ensures r["data"].fields["metric_name"] == JStr(metricName)
      ensures metricName in metricData ==> r["data"].fields["value"] == metricData[metricName]
      ensures metricName !in metricData ==> r["data"].fields["value"] == JStr(MetricNotFound)
      ensures r["status"] == JStr("Error") <==>
                metricName in metricData && metricData[metricName] == JStr(MisspelledNotFound)
      ensures r["status"] != JStr("Error") ==> r["status"] == JStr("OK")
    {
      var data := LookedUpValue(metricData);
      map[
        "status" := JStr(if data != JStr(MisspelledNotFound) then "OK" else "Error"),
        "data" := JObject(map["metric_name" := JStr(metricName), "value" := data])
      ]
    }

    /** `handle_request` with the status test comparing against the literal
        that the lookup's default actually is. */
    function HandleRequestIntended(metricData: Dict): (r: Dict)
      ensures r.Keys == {"status", "data"}
      ensures r["data"] == HandleRequest(metricData)["data"]
      ensures metricName !in metricData ==> r["status"] == JStr("Error")
      ensures metricName in metricData && metricData[metricName] != JStr(MetricNotFound) ==>
                r["status"] == JStr("OK")
      ensures r["status"] == JStr("Error") <==> LookedUpValue(metricData) == JStr(MetricNotFound)
      ensures r["status"] == JStr("OK") || r["status"] == JStr("Error")
    {
      var data := LookedUpValue(metricData);
      map[
        "status" := JStr(if data != JStr(MetricNotFound) then "OK" else "Error"),
        "data" := JObject(map["metric_name" := JStr(metricName), "value" := data])
      ]
    }
  }

  /** The discrepancy of `handle_request` as written: a metric that is absent
      from the data is answered with status OK, while the corrected test
      answers it with status Error. */
  lemma MissingMetricReportedOk(handler: MetricHandler, metricData: Dict)
    requires handler.metricName !in metricData
    ensures handler.HandleRequest(metricData)["status"] == JStr("OK")
    ensures handler.HandleRequest(metricData)["data"].fields["value"] == JStr(MetricNotFound)
    ensures handler.HandleRequestIntended(metricData)["status"] == JStr("Error")
  {
  }

  /** `Routes`: the table read from the routes file at construction, never
      changed afterwards. */
  class Routes {
    const routes: Dict

    /** `Routes.__init__`, given the parsed content of the routes file. */
    constructor (loaded: Dict)
      ensures routes == loaded
    {
      routes := loaded;
    }

    /** `get_route`: `routes.get(metric_name)`, where Python's `None` is the
        JSON null, so a missing name and a name mapped to null look the same. */
    function GetRoute(metricName: string): (r: Json)
      ensures metricName in routes ==> r == routes[metricName]
      ensures metricName !in routes ==> r == JNull
      ensures r == JNull <==> metricName !in routes || routes[metricName] == JNull
    {
      if metricName in routes then routes[metricName] else JNull
    }

    /** `get_routes`: the whole table. */
    function GetRoutes(): (r: Dict)
      ensures r == routes
    {
      routes
    }
  }
}
