/** The endpoint registry of metrics_server/app.py: a map from endpoint path to
    metric retrieval function, the `{status, data}` envelope built by a lookup,
    the two pre-registered metrics, and the GET view's 404 decision. */
module App {
  import opened JsonValues

  /** A metric retrieval function: takes no argument and yields the metric's data. */
  type Retrieval = () -> Json

  /** One `add_metric(endpoint, retrieval_function)` call. */
  datatype Registration = Registration(endpoint: string, retrieve: Retrieval)

  const EndpointNotFound: string := "Endpoint not found"
  const DeploymentFrequencyPath: string := "/deployment-frequency"
  const ChangeLeadTimePath: string := "/change-lead-time"

  /** `MetricsServer.get_deployment_frequency`: a constant example metric. */
  function GetDeploymentFrequency(): Json
  {
    JObject(map["deployment-frequency" := JNum(42)])
  }

  /** `MetricsServer.get_change_lead_time`: a constant example metric. */
  function GetChangeLeadTime(): Json
  {
    JObject(map["change-lead-time" := JStr("15 minutes")])
  }

  /** The endpoint map of a fresh registry after the calls `adds`, in order. */
  ghost function Registered(adds: seq<Registration>): (m: map<string, Retrieval>)
    ensures m.Keys == set i | 0 <= i < |adds| :: adds[i].endpoint
  {
    if adds == [] then map[]
    else
      var last := adds[|adds| - 1];
      Registered(adds[..|adds| - 1])[last.endpoint := last.retrieve]
  }

  /** Call `i` is the last of `adds` that registers `endpoint`. */
  ghost predicate IsLastFor(adds: seq<Registration>, endpoint: string, i: int)
  {
    && 0 <= i < |adds|
    && adds[i].endpoint == endpoint
    && forall j :: i < j < |adds| ==> adds[j].endpoint != endpoint
  }

  /** Last write wins: the function registered for an endpoint is the one
      given by the last `add_metric` call for it, whatever came before. */
  lemma {:induction false} LastWriteWins(adds: seq<Registration>, endpoint: string, i: int)
    requires IsLastFor(adds, endpoint, i)
    ensures endpoint in Registered(adds)
    ensures Registered(adds)[endpoint] == adds[i].retrieve
  {
    if i < |adds| - 1 {
      var front := adds[..|adds| - 1];
      assert IsLastFor(front, endpoint, i) by {
        forall j | i < j < |front| ensures front[j].endpoint != endpoint {
          assert front[j] == adds[j];
        }
      }
      LastWriteWins(front, endpoint, i);
      assert adds[|adds| - 1].endpoint != endpoint;
    }
  }

  /** `BaseMetricsServer`; the subclass `MetricsServer` only adds an
      initialisation, modelled as the named constructor `MetricsServer`. */
  class BaseMetricsServer {
    var metricsMap: map<string, Retrieval>
    /** The `add_metric` calls made on this object so far. */
    ghost var history: seq<Registration>

    ghost predicate Valid()
      reads this
    {
      metricsMap == Registered(history)
    }

    /** `BaseMetricsServer.__init__`: no endpoint is registered. */
    constructor ()
      ensures Valid()
      ensures history == []
      ensures metricsMap == map[]
    {
      metricsMap := map[];
      history := [];
    }

    /** `MetricsServer.__init__`: the base initialisation followed by two registrations. */
    constructor MetricsServer()
      ensures Valid()
      ensures metricsMap.Keys == {DeploymentFrequencyPath, ChangeLeadTimePath}
      ensures metricsMap[DeploymentFrequencyPath] == GetDeploymentFrequency
      ensures metricsMap[ChangeLeadTimePath] == GetChangeLeadTime
      ensures GetMetric(DeploymentFrequencyPath)["data"] == JObject(map["deployment-frequency" := JNum(42)])
      ensures GetMetric(ChangeLeadTimePath)["data"] == JObject(map["change-lead-time" := JStr("15 minutes")])
    {
      metricsMap := map[];
      history := [];
      new;
      AddMetric(DeploymentFrequencyPath, GetDeploymentFrequency);
      AddMetric(ChangeLeadTimePath, GetChangeLeadTime);
    }

    /** `add_metric`: registers `retrieve` at `endpoint`, replacing any earlier
        registration there and leaving every other endpoint as it was. */
    method AddMetric(endpoint: string, retrieve: Retrieval)
      requires Valid()
      modifies this
      ensures Valid()
      ensures history == old(history) + [Registration(endpoint, retrieve)]
      ensures endpoint in metricsMap && metricsMap[endpoint] == retrieve
      ensures metricsMap.Keys == old(metricsMap).Keys + {endpoint}
      ensures forall e :: e in old(metricsMap) && e != endpoint ==> metricsMap[e] == old(metricsMap)[e]
    {
      metricsMap := metricsMap[endpoint := retrieve];
      history := history + [Registration(endpoint, retrieve)];
      assert history[..|history| - 1] == old(history);
    }

    /** `get_metric`: an OK envelope carrying the retrieval function's result
        for a registered endpoint, an Error envelope with a message otherwise. */
    function GetMetric(endpoint: string): (r: Dict)
      reads this
      ensures "status" in r
      ensures r["status"] == JStr("OK") <==> endpoint in metricsMap
      ensures r["status"] != JStr("OK") ==> r["status"] == JStr("Error")
      ensures endpoint in metricsMap ==> r.Keys == {"status", "data"} && r["data"] == metricsMap[endpoint]()
      ensures endpoint !in metricsMap ==> r.Keys == {"status", "message"} && r["message"] == JStr(EndpointNotFound)
    {
      if endpoint in metricsMap then
        map["status" := JStr("OK"), "data" := metricsMap[endpoint]()]
      else
        map["status" := JStr("Error"), "message" := JStr(EndpointNotFound)]
    }
  }

  /** What a registry built by `add_metric` calls serves: the data of the last
      function registered at `endpoint`. */
  lemma ServesLastRegistration(server: BaseMetricsServer, endpoint: string, i: int)
    requires server.Valid()
    requires IsLastFor(server.history, endpoint, i)
    ensures server.GetMetric(endpoint)["status"] == JStr("OK")
    ensures server.GetMetric(endpoint)["data"] == server.history[i].retrieve()
  {
    LastWriteWins(server.history, endpoint, i);
  }

  /** What a registry answers for an endpoint that no `add_metric` call named. */
  lemma UnregisteredNotFound(server: BaseMetricsServer, endpoint: string)
    requires server.Valid()
    requires forall i :: 0 <= i < |server.history| ==> server.history[i].endpoint != endpoint
    ensures server.GetMetric(endpoint) == map["status" := JStr("Error"), "message" := JStr(EndpointNotFound)]
  {
  }

  /** The HTTP answer of the GET view: a JSON body with its status code, or an
      abort with the code and description Flask renders as an error page. */
  datatype Reply = Jsonified(code: nat, body: Dict) | Aborted(code: nat, description: Json)

  /** `handle_request`: looks up "/" + endpoint and turns an Error envelope into a 404. */
  function HandleRequest(server: BaseMetricsServer, endpoint: string): (r: Reply)
    reads server
    ensures r.code == 404 <==> "/" + endpoint !in server.metricsMap
    ensures r.Aborted? <==> r.code == 404
    ensures r.Aborted? ==> r.description == JStr(EndpointNotFound)
    ensures r.Jsonified? ==> r.code == 200 && r.body == server.GetMetric("/" + endpoint)
    ensures r.Jsonified? ==> r.body["status"] == JStr("OK") && r.body["data"] == server.metricsMap["/" + endpoint]()
  {
    var response := server.GetMetric("/" + endpoint);
    if response["status"] == JStr("Error") then Aborted(404, response["message"])
    else Jsonified(200, response)
  }
}
