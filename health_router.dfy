/** The `/alive` and `/ready` endpoints of the health router. */
module HealthRouter {
  import opened Readiness

  const OK := 200
  const BAD_REQUEST := 400

  /** The values of `StatusReadyEnum`. */
  const StatusOk := "OK"
  const StatusNotOk := "NOT OK"

  /** `ReadySchema`: the report and the overall status. */
  datatype ReadySchema = ReadySchema(dependencies: seq<DependencyHealthCheck>, status: string)

  /** `AliveSchema`, whose status defaults to "Running". */
  datatype AliveSchema = AliveSchema(status: string)

  /** Every line of a report is ready. */
  predicate AllReady(report: seq<DependencyHealthCheck>)
  {
    forall i :: 0 <= i < |report| ==> report[i].ready
  }

  /** `/alive`: always 200 with status "Running". */
  function Alive(): (r: (int, AliveSchema))
    ensures r.0 == OK && r.1.status == "Running"
  {
    (OK, AliveSchema("Running"))
  }

  /**
   * `/ready`: 200 and "OK" when every dependency is ready (an empty registry
   * included), otherwise 400 and "NOT OK"; the report itself is returned unchanged.
   */
  method Ready(readiness: Readiness, answers: seq<bool>) returns (statusCode: int, body: ReadySchema)
    requires |answers| == |readiness.dependencies|
    ensures body.dependencies == readiness.Ready(answers)
    ensures AllReady(body.dependencies) <==> statusCode == OK
    ensures statusCode == OK <==> forall i :: 0 <= i < |answers| ==> answers[i]
    ensures statusCode == OK || statusCode == BAD_REQUEST
    ensures body.status == (if statusCode == OK then StatusOk else StatusNotOk)
  {
    var readySchema := ReadySchema(readiness.Ready(answers), StatusOk);
    statusCode := OK;
    var i := 0;
    while i < |readySchema.dependencies|
      invariant 0 <= i <= |readySchema.dependencies|
      invariant readySchema == ReadySchema(readiness.Ready(answers), StatusOk) && statusCode == OK
      invariant forall k :: 0 <= k < i ==> readySchema.dependencies[k].ready
    {
      if !readySchema.dependencies[i].ready {
        statusCode := BAD_REQUEST;
        readySchema := readySchema.(status := StatusNotOk);
        break;
      }
      i := i + 1;
    }
    body := readySchema;
    ReportReadiness(readiness.dependencies, answers);
  }
}
