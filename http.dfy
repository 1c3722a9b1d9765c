/** Responses and the network, as the service worker in public/sw.js sees them. Bodies,
    headers and `clone()` are not modelled: a response is its status and an opaque body. */
module Http {

  datatype Response = Response(status: int, body: string) {
    /** `response.ok`: the status is in the 2xx range. */
    predicate IsOk() {
      200 <= status <= 299
    }
  }

  /** What one `fetch(request)` gives: a response, whatever its status, or a rejection
      (`fetch` throws on a transport failure, never on an HTTP error status). */
  datatype NetResult = Ok(resp: Response) | Fail

  /** What one strategy call settles to: a response, or the failure it propagates. */
  datatype Outcome = Served(resp: Response) | Thrown

  /** Awaiting the network: its response is returned, its failure thrown. */
  function Awaited(net: NetResult): (o: Outcome)
    ensures o.Thrown? <==> net.Fail?
    ensures net.Ok? ==> o.resp == net.resp
  {
    match net
    case Ok(r) => Served(r)
    case Fail => Thrown
  }

  datatype Option<T> = None | Some(value: T)

  /** The network gave a response with a 2xx status: the only kind the worker stores. */
  predicate FetchedOk(net: NetResult) {
    net.Ok? && net.resp.IsOk()
  }
}
