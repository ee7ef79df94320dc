/** The two identities of the fizzled.internal trust domain (internal/authn/identity.go, agentid.go). */
module AgentIdentity {
  import opened Wrappers
  import opened SpiffeId

  const TRUST_DOMAIN: string := "fizzled.internal"
  const MAX_AGENT_ID_LENGTH: nat := 64

  datatype IdentityError = WrongTrustDomain | UnexpectedIdentity | InvalidAgentId

  predicate IsAgentIdChar(c: char) {
    'a' <= c <= 'z' || 'A' <= c <= 'Z' || '0' <= c <= '9' || c == '_' || c == '-'
  }

  predicate ValidAgentId(id: string) {
    && id != ""
    && |id| <= MAX_AGENT_ID_LENGTH
    && forall k :: 0 <= k < |id| ==> IsAgentIdChar(id[k])
  }

  function ClientAgentId(id: ID): Result<string, IdentityError> {
    if id.trustDomain != TRUST_DOMAIN then Failure(WrongTrustDomain)
    else
      var components := id.PathComponents();
      if |components| != 3 || components[0] != "client" || components[1] != "agent" then Failure(UnexpectedIdentity)
      else if !ValidAgentId(components[2]) then Failure(InvalidAgentId)
      else Success(components[2])
  }

  function ServerIdentity(id: ID): Option<IdentityError> {
    if id.trustDomain != TRUST_DOMAIN then Some(WrongTrustDomain)
    else
      var components := id.PathComponents();
      if |components| != 1 || components[0] != "server" then Some(UnexpectedIdentity) else None
  }

  /** A URI names an agent. */
  predicate NamesAgent(uri: string, agent: string) {
    Parse(uri).Success? && ClientAgentId(Parse(uri).value) == Success(agent)
  }

  /** A URI names the server. */
  predicate NamesServer(uri: string) {
    Parse(uri).Success? && ServerIdentity(Parse(uri).value).None?
  }

  /** spiffe://fizzled.internal/client/agent/ */
  const AGENT_PREFIX: string := SCHEME + TRUST_DOMAIN + "/client/agent/"

  /** spiffe://fizzled.internal/server */
  const SERVER_URI: string := SCHEME + TRUST_DOMAIN + "/server"

  lemma AgentPath(agent: string)
    ensures PathOf(["client", "agent", agent]) == "/client/agent/" + agent
    ensures SCHEME + TRUST_DOMAIN + PathOf(["client", "agent", agent]) == AGENT_PREFIX + agent
  {
    var components := ["client", "agent", agent];
    assert components[1..] == ["agent", agent];
    assert components[1..][1..] == [agent];
    assert PathOf([agent]) == "/" + agent;
  }

  lemma ServerPath()
    ensures PathOf(["server"]) == "/server"
    ensures SCHEME + TRUST_DOMAIN + PathOf(["server"]) == SERVER_URI
  {
    assert ["server"][1..] == [];
  }

  lemma AgentUriInGrammar(agent: string)
    requires ValidAgentId(agent)
    ensures InGrammar(AGENT_PREFIX + agent, TRUST_DOMAIN, ["client", "agent", agent])
  {
    AgentPath(agent);
    assert agent != "." && agent != ".." by {
      assert IsAgentIdChar(agent[0]);
    }
    assert ValidComponent("client") && ValidComponent("agent") && ValidComponent(agent);
  }

  /** An agent id: one to 64 letters, digits, hyphens and underscores. */
  ghost predicate IsAgentId(id: string) {
    && 1 <= |id| <= 64
    && forall k :: 0 <= k < |id| ==> id[k] in LOWER || id[k] in UPPER || id[k] in DIGITS || id[k] in {'-', '_'}
  }

  lemma AgentIdExact(id: string)
    ensures ValidAgentId(id) <==> IsAgentId(id)
  {
    forall k | 0 <= k < |id|
      ensures IsAgentIdChar(id[k]) <==> id[k] in LOWER || id[k] in UPPER || id[k] in DIGITS || id[k] in {'-', '_'}
    {
      Lower(id[k]);
      Upper(id[k]);
      Digits(id[k]);
    }
  }

  lemma PrefixIsLiteral()
    ensures AGENT_PREFIX == "spiffe://fizzled.internal/client/agent/"
  {
  }

  lemma ServerUriIsLiteral()
    ensures SERVER_URI == "spiffe://fizzled.internal/server"
  {
  }

  /** Agent ids and agent URIs correspond one to one: a URI names an agent exactly if the agent's id is
      valid and the URI is the fixed prefix followed by that id. */
  lemma AgentBijection(uri: string, agent: string)
    ensures NamesAgent(uri, agent) <==> IsAgentId(agent) && uri == "spiffe://fizzled.internal/client/agent/" + agent
  {
    AgentIdExact(agent);
    PrefixIsLiteral();
    if NamesAgent(uri, agent) {
      ParseSound(uri);
      var components := Parse(uri).value.PathComponents();
      assert components == ["client", "agent", agent];
      AgentPath(agent);
    }
    if ValidAgentId(agent) && uri == AGENT_PREFIX + agent {
      AgentUriInGrammar(agent);
      ParseComplete(uri, TRUST_DOMAIN, ["client", "agent", agent]);
    }
  }

  lemma ServerUriInGrammar()
    ensures InGrammar(SERVER_URI, TRUST_DOMAIN, ["server"])
  {
    ServerPath();
    assert ValidComponent("server");
  }

  /** Exactly one URI names the server. */
  lemma ServerUri(uri: string)
    ensures NamesServer(uri) <==> uri == "spiffe://fizzled.internal/server"
  {
    ServerUriIsLiteral();
    if NamesServer(uri) {
      ParseSound(uri);
      assert Parse(uri).value.PathComponents() == ["server"];
      ServerPath();
    } else if uri == SERVER_URI {
      ServerUriInGrammar();
      ParseComplete(uri, TRUST_DOMAIN, ["server"]);
    }
  }

  /** No URI is both sides, no agent has two URIs and no URI names two agents. */
  lemma IdentitiesApart(uri: string, other: string, agent: string, fellow: string)
    ensures !(NamesAgent(uri, agent) && NamesServer(uri))
    ensures NamesAgent(uri, agent) && NamesAgent(other, agent) ==> uri == other
    ensures NamesAgent(uri, agent) && NamesAgent(uri, fellow) ==> agent == fellow
  {
    AgentBijection(uri, agent);
    AgentBijection(other, agent);
  }

  /** An identity that is no agent's is refused for its trust domain, then its shape, then its agent id. */
  lemma ClientErrors(id: ID)
    ensures ClientAgentId(id) == Failure(WrongTrustDomain) <==> id.trustDomain != "fizzled.internal"
    ensures ClientAgentId(id) == Failure(UnexpectedIdentity) <==>
            && id.trustDomain == "fizzled.internal"
            && !(|id.PathComponents()| == 3 && id.PathComponents()[..2] == ["client", "agent"])
    ensures ClientAgentId(id) == Failure(InvalidAgentId) <==>
            && id.trustDomain == "fizzled.internal"
            && |id.PathComponents()| == 3 && id.PathComponents()[..2] == ["client", "agent"]
            && !IsAgentId(id.PathComponents()[2])
  {
    if |id.PathComponents()| == 3 {
      AgentIdExact(id.PathComponents()[2]);
      assert id.PathComponents()[..2] == [id.PathComponents()[0], id.PathComponents()[1]];
    }
  }

  lemma ServerErrors(id: ID)
    ensures ServerIdentity(id) == Some(WrongTrustDomain) <==> id.trustDomain != "fizzled.internal"
    ensures ServerIdentity(id) == Some(UnexpectedIdentity) <==>
            id.trustDomain == "fizzled.internal" && id.PathComponents() != ["server"]
  {
  }
}
