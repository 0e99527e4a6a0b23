/** The servlet plumbing around the filter: the request it reads and the chain it forwards to. */
module Servlet {
  import opened Wrappers
  import opened Security

  /** An incoming request, reduced to its headers. */
  datatype Request = Request(headers: map<string, string>) {

    /** `HttpServletRequest.getHeader`: the header's value, or `None` (null) when it is absent. */
    function GetHeader(name: string): (r: Option<string>)
      ensures r.Some? <==> name in headers
      ensures r.Some? ==> headers[name] == r.value
    {
      if name in headers then Some(headers[name]) else None
    }
  }

  /** One hand-over to the rest of the chain: the request and the authentication it carried. */
  datatype Forwarded = Forwarded(request: Request, authentication: Option<Authentication>)

  /** The rest of the filter chain, reduced to a record of every request handed to it. */
  class FilterChain {
    var forwarded: seq<Forwarded>

    constructor ()
      ensures forwarded == []
    {
      forwarded := [];
    }

    /** `FilterChain.doFilter`: the request goes on, seeing the context as it is now. */
    method DoFilter(request: Request, ctx: SecurityContext)
      modifies this
      ensures forwarded == old(forwarded) + [Forwarded(request, ctx.authentication)]
    {
      forwarded := forwarded + [Forwarded(request, ctx.authentication)];
    }
  }
}
