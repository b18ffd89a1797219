/**
 * The `start-game` handler: builds the two debaters' display names and the
 * topic from the character names, asks the moderator chain for an opening,
 * creates the match in the store and seeds its log with one `System` entry.
 * The moderator reply, the clock-based id (`Date.now()`) and the random
 * prefix choices are parameters.
 */
module StartGame {
  import opened JsText
  import opened Domain
  import opened TurnEngine
  import MatchStore

  const Prefixes: seq<string> := ["Passionate", "Devoted", "Dedicated", "Loyal", "Fervent"]
  const Suffix: string := "Fan"

  /** `generateAgentName(character)`, where `pick` is the random index
      `Math.floor(Math.random() * prefixes.length)`: a prefix, a blank, the
      character, a blank and `Fan`. */
  function AgentName(character: string, pick: nat): (name: string)
    requires pick < |Prefixes|
    ensures var lead := |Prefixes[pick]| + 1;
      && |name| == lead + |character| + 1 + |Suffix|
      && name[..lead] == Prefixes[pick] + " "
      && name[lead..lead + |character|] == character
      && name[lead + |character|..] == " " + Suffix
  {
    Prefixes[pick] + " " + character + " " + Suffix
  }

  /** The game-event handler reads the character back out of an agent name
      (its second blank-separated word); for a one-word character that is the
      character itself. */
  lemma {:induction false} CharacterNameOfAgentName(character: string, pick: nat)
    requires pick < |Prefixes|
    requires ' ' !in character
    ensures CharacterName(AgentName(character, pick)) == character
  {
    var name := AgentName(character, pick);
    var lead := |Prefixes[pick]| + 1;
    var close := lead + |character|;
    assert ' ' !in Prefixes[pick];
    assert name[lead - 1] == ' ' && name[close] == ' ';
    forall k | 0 <= k < lead - 1 ensures NotBlank(name[k]) {
      assert name[k] == Prefixes[pick][k];
    }
    RunEndIsUnique(name, 0, lead - 1, NotBlank);
    forall k | lead <= k < close ensures NotBlank(name[k]) {
      assert name[k] == character[k - lead];
    }
    RunEndIsUnique(name, lead, close, NotBlank);
    assert SplitBlankFrom(name, lead)[0] == character;
  }

  /** The random choices are valid prefix indices, one per character. */
  predicate ValidPicks(picks: seq<nat>, count: nat)
  {
    |picks| == count && forall i :: 0 <= i < |picks| ==> picks[i] < |Prefixes|
  }

  /** `characters.map(generateAgentName)`: same length and order. */
  function AgentNames(characters: seq<string>, picks: seq<nat>): (names: seq<string>)
    requires ValidPicks(picks, |characters|)
    ensures |names| == |characters|
    ensures forall i :: 0 <= i < |names| ==> names[i] == AgentName(characters[i], picks[i])
  {
    seq(|characters|, i requires 0 <= i < |characters| => AgentName(characters[i], picks[i]))
  }

  /** A character as a template string shows it; a missing one is `undefined`. */
  function Shown(characters: seq<string>, k: nat): string
  {
    if k < |characters| then characters[k] else "undefined"
  }

  /** `${characters[0]} vs ${characters[1]}`. */
  function Topic(characters: seq<string>): (t: string)
    ensures |characters| >= 2 ==> t == characters[0] + " vs " + characters[1]
    ensures |characters| == 1 ==> t == characters[0] + " vs undefined"
    ensures |characters| == 0 ==> t == "undefined vs undefined"
  {
    Shown(characters, 0) + " vs " + Shown(characters, 1)
  }

  /** The handler's answers: 500, or 200 with `{matchId, chatLog, agents}`. */
  datatype StartResponse = StartFailed | Started(matchId: string, chatLog: seq<ChatEntry>, agents: seq<string>)

  /** The `start-game` handler. A failing moderator call answers 500 before
      anything is stored. Otherwise a fresh record is stored under `now`
      (replacing any record already there, other ids untouched) whose log is
      the single `System` opening, and the answer carries that id, that log
      and the agent names. */
  method HandleStartGame(store: MatchStore.MatchManager, characters: seq<string>, picks: seq<nat>,
                         now: string, intro: ChainOutcome) returns (response: StartResponse)
    requires ValidPicks(picks, |characters|)
    modifies store
    ensures intro.ChainFailed? ==> response == StartFailed && store.matches == old(store.matches)
    ensures intro.Replied? ==>
      && response == Started(now, [ChatEntry(SystemAgent, intro.content)], AgentNames(characters, picks))
      && now in store.matches
      && store.matches == old(store.matches)[now := store.matches[now]]
      && fresh(store.matches[now])
      && store.matches[now].id == now
      && store.matches[now].topic == Topic(characters)
      && store.matches[now].agents == response.agents
      && store.matches[now].chatLog == response.chatLog
    ensures old(store.KeysAreIds()) ==> store.KeysAreIds()
  {
    var agentNames := AgentNames(characters, picks);
    if intro.ChainFailed? {
      return StartFailed;
    }
    var matchId := now;
    var m := store.CreateMatch(matchId, Topic(characters), agentNames);
    m.Push(ChatEntry(SystemAgent, intro.content));
    store.UpdateMatch(matchId, m);
    response := Started(m.id, m.chatLog, agentNames);
  }

  /** Because the opening occupies index 0 of the log, the first advance of a
      two-debater match is played by the second agent against character 1,
      and its prompt carries no history. */
  lemma FirstAdvanceBySecondAgent(agents: seq<string>, opening: string, health: Health,
                                  narrator: TurnPrompt -> ChainOutcome, imageSearch: string -> SearchOutcome,
                                  judge: string -> ChainOutcome)
    requires |agents| == 2
    ensures RecentHistory([ChatEntry(SystemAgent, opening)]) == ""
    ensures var t := Advance(agents, [ChatEntry(SystemAgent, opening)], health, narrator, imageSearch, judge);
      && (t.pushed.Some? ==> t.pushed.value.agent == agents[1])
      && (t.response.Played? ==>
            && t.response.health.character2 == health.character2
            && t.response.health.character1 == Max0(health.character1 - t.response.damage))
  {
    assert NonSystem([ChatEntry(SystemAgent, opening)]) == [];
  }
}
