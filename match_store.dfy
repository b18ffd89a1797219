/**
 * The process-wide match table: `MatchManager` keeps match records in a
 * `Map` keyed by match id and hands the records out by reference, so a
 * caller that appends to the `chatLog` of a record it got from the store
 * changes the stored record.
 */
module MatchStore {
  import opened Wrappers
  import opened Domain

  /** A match record `{id, topic, agents, chatLog}`. No code assigns `id`,
      `topic` or `agents` after creation; `chatLog` is appended to in place. */
  class Match {
    const id: string
    const topic: string
    const agents: seq<string>
    var chatLog: seq<ChatEntry>

    constructor (id: string, topic: string, agents: seq<string>)
      ensures this.id == id && this.topic == topic && this.agents == agents
      ensures chatLog == []
    {
      this.id := id;
      this.topic := topic;
      this.agents := agents;
      chatLog := [];
    }

    /** `match.chatLog.push(entry)`. */
    method Push(entry: ChatEntry)
      modifies this
      ensures chatLog == old(chatLog) + [entry]
    {
      chatLog := chatLog + [entry];
    }
  }

  class MatchManager {
    var matches: map<string, Match>

    /** Every record is stored under its own id. `createMatch` keeps this, and
        so does `updateMatch` when it is given a record with that id. */
    predicate KeysAreIds()
      reads this
    {
      forall k :: k in matches ==> matches[k].id == k
    }

    constructor ()
      ensures matches == map[]
      ensures KeysAreIds()
    {
      matches := map[];
    }

    /** `createMatch(id, topic, agents)`: stores a fresh record with an empty
        log under `id`, replacing any record already there, and returns it. */
    method CreateMatch(id: string, topic: string, agents: seq<string>) returns (m: Match)
      modifies this
      ensures fresh(m)
      ensures m.id == id && m.topic == topic && m.agents == agents && m.chatLog == []
      ensures matches == old(matches)[id := m]
      ensures forall k :: k in old(matches) && k != id ==> k in matches && matches[k] == old(matches)[k]
      ensures old(KeysAreIds()) ==> KeysAreIds()
    {
      m := new Match(id, topic, agents);
      matches := matches[id := m];
    }

    /** `getMatch(id)`: the stored record itself, or `undefined`. */
    method GetMatch(id: string) returns (r: Option<Match>)
      ensures id in matches ==> r == Some(matches[id])
      ensures id !in matches ==> r == None
      ensures KeysAreIds() && r.Some? ==> r.value.id == id
    {
      if id in matches {
        r := Some(matches[id]);
      } else {
        r := None;
      }
    }

    /** `updateMatch(id, m)`: stores `m` under `id` whether or not the id was
        present; never fails. */
    method UpdateMatch(id: string, m: Match)
      modifies this
      ensures matches == old(matches)[id := m]
      ensures forall k :: k in old(matches) && k != id ==> k in matches && matches[k] == old(matches)[k]
      ensures old(KeysAreIds()) && m.id == id ==> KeysAreIds()
      ensures id in old(matches) && old(matches)[id] == m ==> matches == old(matches)
    {
      matches := matches[id := m];
    }

    /** `deleteMatch(id)`: removes `id`; nothing happens when it is absent. */
    method DeleteMatch(id: string)
      modifies this
      ensures matches == old(matches) - {id}
      ensures id !in old(matches) ==> matches == old(matches)
      ensures forall k :: k in old(matches) && k != id ==> k in matches && matches[k] == old(matches)[k]
      ensures old(KeysAreIds()) ==> KeysAreIds()
    {
      matches := matches - {id};
    }
  }
}
