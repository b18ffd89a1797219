/** The values the server and the browser exchange: chat entries, the health
    map, and the `System` agent name that marks moderator and damage notes. */
module Domain {
  /** The agent name of entries written by the game itself, not a debater. */
  const SystemAgent: string := "System"

  /** Starting health of each character, in the browser (`MAX_HEALTH`). */
  const MaxHealth: int := 100

  /** One `{agent, message}` entry of a chat log. */
  datatype ChatEntry = ChatEntry(agent: string, message: string)

  /** The `{character1, character2}` health map the browser sends and receives. */
  datatype Health = Health(character1: int, character2: int)

  /** `log.filter(entry => entry.agent !== 'System')`. */
  function NonSystem(log: seq<ChatEntry>): (r: seq<ChatEntry>)
    ensures |r| <= |log|
    ensures forall i :: 0 <= i < |r| ==> r[i].agent != SystemAgent
    decreases |log|
  {
    if log == [] then []
    else (if log[0].agent == SystemAgent then [] else [log[0]]) + NonSystem(log[1..])
  }

  /** Every debater entry of the log is kept. */
  lemma {:induction false} NonSystemKeeps(log: seq<ChatEntry>, e: ChatEntry)
    requires e in log && e.agent != SystemAgent
    ensures e in NonSystem(log)
    decreases |log|
  {
    if e != log[0] {
      NonSystemKeeps(log[1..], e);
    }
  }

  /** Every entry the filter keeps comes from the log. */
  lemma {:induction false} NonSystemFromLog(log: seq<ChatEntry>, e: ChatEntry)
    requires e in NonSystem(log)
    ensures e in log && e.agent != SystemAgent
    decreases |log|
  {
    if log != [] && e != log[0] {
      NonSystemFromLog(log[1..], e);
    }
  }

  /** Filtering distributes over appending one entry. */
  lemma {:induction false} NonSystemAppend(log: seq<ChatEntry>, e: ChatEntry)
    ensures NonSystem(log + [e]) == NonSystem(log) + (if e.agent == SystemAgent then [] else [e])
    decreases |log|
  {
    if log == [] {
      assert [e][1..] == [];
    } else {
      assert (log + [e])[1..] == log[1..] + [e];
      NonSystemAppend(log[1..], e);
    }
  }
}
