/** The authentication object the filter publishes and the context that holds it. */
module Security {
  import opened Wrappers
  import opened AuthorityUtils

  /**
   * `UsernamePasswordAuthenticationToken` as built by its three-argument
   * constructor: every value stands for an authenticated token.
   * `credentials` is `None` for Java's `null`.
   */
  datatype Authentication = UsernamePasswordAuthenticationToken(
    principal: string,
    credentials: Option<string>,
    authorities: seq<GrantedAuthority>)

  /** The security context of the current request: at most one authentication. */
  class SecurityContext {
    var authentication: Option<Authentication>
    /** How many times an authentication has been stored, for stating "set exactly once". */
    ghost var writes: nat

    constructor ()
      ensures authentication == None && writes == 0
    {
      authentication := None;
      writes := 0;
    }

    /** `SecurityContext.setAuthentication`: replaces whatever the context held. */
    method SetAuthentication(a: Authentication)
      modifies this
      ensures authentication == Some(a)
      ensures writes == old(writes) + 1
    {
      authentication := Some(a);
      writes := writes + 1;
    }
  }
}
