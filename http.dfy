/** A `fetch` Response, as far as the clients look at it. The network is not modelled:
    every response is an input of the operation that receives it. */
module Http {

  datatype Response = Response(status: nat, statusText: string, body: string)

  /** `res.ok`: a status in the range 200-299. */
  predicate IsOk(r: Response) {
    200 <= r.status <= 299
  }

  /** `${text || res.statusText}`: the body, or the status text when the body is empty. */
  function Detail(r: Response): (d: string)
    ensures r.body != "" ==> d == r.body
    ensures r.body == "" ==> d == r.statusText
  {
    if r.body != "" then r.body else r.statusText
  }
}
