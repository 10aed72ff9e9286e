/** The records the store keeps about agents, their skills and tool servers, and
    the joining of texts that both the flows and the orchestrator do. */
module Catalog {

  datatype Skill = Skill(name: string, serverId: string, tool: string)

  datatype Agent = Agent(id: string, name: string, systemPrompt: string, skills: seq<Skill>, enabled: bool)

  /** A registered server and whether its transport can be parsed. */
  datatype Server = Server(name: string, transportParses: bool)

  function Joined(parts: seq<string>, sep: string): string
  {
    if parts == [] then ""
    else if |parts| == 1 then parts[0]
    else Joined(parts[..|parts| - 1], sep) + sep + parts[|parts| - 1]
  }

  /** Joining outright: nothing for no part, a part for itself, and one more part
      after a separator. */
  lemma JoinedExactly(parts: seq<string>, part: string, sep: string)
    ensures Joined([], sep) == "" && Joined([part], sep) == part
    ensures parts != [] ==> Joined(parts + [part], sep) == Joined(parts, sep) + sep + part
  {
    assert (parts + [part])[..|parts|] == parts;
  }
}
