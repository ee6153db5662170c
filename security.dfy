/** security/AuthFilter.java: the gate in front of the administrator's HTTP
    API. The password hash from the environment and the password encoder's
    `matches` are parameters. */
module Security {
  import opened Common
  import opened Text

  const SC_UNAUTHORIZED: int := 401

  /** The authentication placed in the security context. */
  datatype Authentication = Authentication(principal: string, credentials: string, authority: string, authenticated: bool)

  /** What the filter grants an accepted administrator. */
  const ADMIN: Authentication := Authentication("admin", "xxx", "ROLE_ADMIN", true)

  /** `isValidPassword(token)`: a non-empty token, a configured non-empty
      hash, and the encoder's verdict. */
  function IsValidPassword(token: string, hash: Option<string>, matches: (string, string) -> bool): (ok: bool)
    ensures ok ==> token != [] && hash.Some? && hash.value != [] && matches(token, hash.value)
    ensures token != [] && hash.Some? && hash.value != [] && matches(token, hash.value) ==> ok
  {
    if token == [] then false
    else if hash.None? || hash.value == [] then false
    else matches(token, hash.value)
  }

  /** The three ways `doFilterInternal` ends. */
  datatype Decision =
    | Bypass     // a transport path: on down the chain, unchecked
    | Reject     // 401, the chain is not invoked
    | Admit      // the admin authentication is set, then the chain runs

  /** The decision `doFilterInternal` takes for a request. */
  function Decide(uri: string, authHeader: Option<string>, hash: Option<string>, matches: (string, string) -> bool): (d: Decision)
    ensures d.Bypass? <==> StartsWith(uri, "/ws")
    ensures d.Admit? ==> authHeader.Some? && hash.Some? && matches(Trim(authHeader.value), hash.value)
    ensures d.Admit? <==> !StartsWith(uri, "/ws") && authHeader.Some?
                          && IsValidPassword(Trim(authHeader.value), hash, matches)
    ensures d.Reject? <==> !StartsWith(uri, "/ws") && !d.Admit?
  {
    if StartsWith(uri, "/ws") then Bypass
    else if authHeader.None? then Reject
    else if !IsValidPassword(Trim(authHeader.value), hash, matches) then Reject
    else Admit
  }

  /** Every path that merely starts with "/ws" skips the check, "/wsx" included. */
  lemma TransportPathsBypass(rest: string, authHeader: Option<string>, hash: Option<string>, matches: (string, string) -> bool)
    ensures Decide("/ws" + rest, authHeader, hash, matches) == Bypass
  {
    assert ("/ws" + rest)[..3] == "/ws";
  }

  /** Without a configured hash no token gets in, whatever the encoder says. */
  lemma NoHashRejectsAll(uri: string, authHeader: Option<string>, hash: Option<string>, matches: (string, string) -> bool)
    requires !StartsWith(uri, "/ws")
    requires hash.None? || hash.value == []
    ensures Decide(uri, authHeader, hash, matches) == Reject
  {
  }

  /** A header of nothing but spaces and control characters trims to the
      empty token and is refused, whatever the encoder says. */
  lemma BlankHeaderRejected(uri: string, header: string, hash: Option<string>, matches: (string, string) -> bool)
    requires !StartsWith(uri, "/ws")
    requires forall k :: 0 <= k < |header| ==> IsTrimmed(header[k])
    ensures Decide(uri, Some(header), hash, matches) == Reject
  {
  }

  /** The request and response as far as the filter sees and changes them:
      the response status, how often the chain ran, and the security context. */
  class Exchange {
    var status: Option<int>
    var chainCalls: nat
    var context: Option<Authentication>

    constructor ()
      ensures status == None && chainCalls == 0 && context == None
    {
      status := None;
      chainCalls := 0;
      context := None;
    }
  }

  class AuthFilter {
    constructor ()
    {
    }

    /** `doFilterInternal`: transport paths go straight down the chain; other
        requests need an Authorization header whose trimmed value the encoder
        accepts, and otherwise get 401 without reaching the chain. */
    method DoFilterInternal(uri: string, authHeader: Option<string>, hash: Option<string>,
                            matches: (string, string) -> bool, exchange: Exchange)
      modifies exchange
      ensures var d := Decide(uri, authHeader, hash, matches);
              && (d.Bypass? ==> exchange.chainCalls == old(exchange.chainCalls) + 1
                                && exchange.status == old(exchange.status) && exchange.context == old(exchange.context))
              && (d.Reject? ==> exchange.chainCalls == old(exchange.chainCalls)
                                && exchange.status == Some(SC_UNAUTHORIZED) && exchange.context == old(exchange.context))
              && (d.Admit? ==> exchange.chainCalls == old(exchange.chainCalls) + 1
                               && exchange.status == old(exchange.status) && exchange.context == Some(ADMIN))
    {
      if StartsWith(uri, "/ws") {
        exchange.chainCalls := exchange.chainCalls + 1;
        return;
      }
      if authHeader.None? {
        exchange.status := Some(SC_UNAUTHORIZED);
        return;
      }
      var token := Trim(authHeader.value);
      if !IsValidPassword(token, hash, matches) {
        exchange.status := Some(SC_UNAUTHORIZED);
        return;
      }
      exchange.context := Some(ADMIN);
      exchange.chainCalls := exchange.chainCalls + 1;
    }
  }
}
