/** The data exchanged by the metrics-server packages (pkg/sources/interfaces.go,
    pkg/provider/interfaces.go). */
module MetricsTypes {
  import opened Wrappers

  /** Nanoseconds since the zero value of Go's time.Time, so IsZero is t == ZERO_TIME */
  type Time = int
  const ZERO_TIME: Time := 0

  /** Errors carry what the code distinguishes and no message text. */
  datatype Error =
    | FetchFailed(node: string)
    | NoTimestamp(what: string)
    | MissingCpu(what: string)
    | MissingMemory(what: string)
    | ScrapeFailed(source: string, cause: Error)
    | Aggregate(errs: seq<Error>)
    | Opaque(id: int)

  /** utilerrors.NewAggregate: no error at all for an empty list */
  function NewAggregate(errs: seq<Error>): Option<Error> {
    if errs == [] then None else Some(Aggregate(errs))
  }

  datatype Format = Unset | DecimalSI | BinarySI

  /** mantissa * 10^scale; the zero value of the Go struct is ZERO_QUANTITY */
  datatype Quantity = Quantity(mantissa: int, scale: int, format: Format)
  const ZERO_QUANTITY := Quantity(0, 0, Unset)

  datatype MetricsPoint = MetricsPoint(timestamp: Time, cpuUsage: Quantity, memoryUsage: Quantity)
  const ZERO_POINT := MetricsPoint(ZERO_TIME, ZERO_QUANTITY, ZERO_QUANTITY)

  datatype NodeMetricsPoint = NodeMetricsPoint(name: string, point: MetricsPoint)
  datatype ContainerMetricsPoint = ContainerMetricsPoint(name: string, point: MetricsPoint)
  datatype PodMetricsPoint =
    PodMetricsPoint(name: string, namespace: string, containers: seq<ContainerMetricsPoint>)

  datatype MetricsBatch = MetricsBatch(nodes: seq<NodeMetricsPoint>, pods: seq<PodMetricsPoint>)

  datatype NamespacedName = NamespacedName(namespace: string, name: string)

  function NodeKey(p: NodeMetricsPoint): string { p.name }

  function PodKey(p: PodMetricsPoint): NamespacedName { NamespacedName(p.namespace, p.name) }
}
