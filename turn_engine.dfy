/**
 * The `game-event` handler: one advance of a stored match. It derives who
 * acts and who is attacked from the length of the stored log, asks the
 * narrator for the acting agent's message (with an optional image
 * request), appends that one entry to the stored record, asks the judge for
 * a rating, turns the rating into damage against the client's health
 * snapshot and decides the winner.
 *
 * The language-model calls and the image search are parameters: `narrator`
 * and `judge` stand for the two LangChain chains (a timeout of the 35-second
 * race is a `ChainFailed` reply), `imageSearch` for the Tavily tool.
 */
module TurnEngine {
  import opened Wrappers
  import opened JsText
  import opened Domain
  import MatchStore

  const MinDamage: nat := 5
  const MaxDamage: nat := 20
  const DefaultRating: nat := 5
  const SkipText: string := "Time limit exceeded. Skipping turn."
  const ImageRequestTag: string := "[IMAGE:"
  const RatingLabel: string := "Rating:"

  /** A chain call either rejects (an error, or the timer of the race) or
      resolves with a reply whose `content` is read; the empty string stands
      for every falsy content. */
  datatype ChainOutcome = ChainFailed | Replied(content: string)

  /** The search tool either throws or returns its results, of which only the
      first result's `image` field is read (`None` when there is no result or
      no such field). */
  datatype SearchOutcome = SearchFailed | Results(firstImage: Option<string>)

  /** What the debater prompt is assembled from. */
  datatype TurnPrompt = TurnPrompt(currentAgent: string, characterName: string, nextAgent: string, recentHistory: string)

  /** The handler's answers: 404, 500 (the `catch`), or 200 with its body. */
  datatype EventResponse =
    | NotFound
    | ServerError
    | Played(newMessage: ChatEntry, health: Health, winner: Option<string>, damage: nat, imageUrl: Option<string>)

  /** `chatLog.length % agents.length`: the agent whose turn it is. */
  function ActingIndex(logLength: nat, agentCount: nat): (i: nat)
    requires agentCount > 0
    ensures i < agentCount
    ensures logLength < agentCount ==> i == logLength
  {
    logLength % agentCount
  }

  /** `(currentAgentIndex + 1) % agents.length`: the agent under attack. */
  function TargetIndex(acting: nat, agentCount: nat): (t: nat)
    requires acting < agentCount
    ensures t < agentCount
    ensures t != acting <==> agentCount > 1
    ensures t == acting + 1 || (t == 0 && acting == agentCount - 1)
  {
    if acting + 1 == agentCount then 0 else acting + 1
  }

  /** With two agents the turn passes back and forth as the log grows by one
      entry, and the agent attacked now is the one who acts next. */
  lemma TwoAgentsAlternate(logLength: nat)
    ensures ActingIndex(logLength + 1, 2) == 1 - ActingIndex(logLength, 2)
    ensures TargetIndex(ActingIndex(logLength, 2), 2) == ActingIndex(logLength + 1, 2)
    ensures ActingIndex(logLength, 2) == 0 <==> logLength % 2 == 0
  {
  }

  /** `currentAgent.split(' ')[1]`; a missing piece prints as `undefined` in
      the template strings it is used in. */
  function CharacterName(agent: string): (name: string)
    ensures ' ' !in name
    ensures |SplitBlank(agent)| > 1 ==> name == SplitBlank(agent)[1]
  {
    var pieces := SplitBlank(agent);
    if |pieces| > 1 then pieces[1] else "undefined"
  }

  /** `chatLog.filter(not System).slice(-2)`: the last two debater entries. */
  function RecentEntries(log: seq<ChatEntry>): (r: seq<ChatEntry>)
    ensures var ns := NonSystem(log);
      && |r| == (if |ns| < 2 then |ns| else 2)
      && forall k :: 0 <= k < |r| ==> r[k] == ns[|ns| - |r| + k]
    ensures forall i :: 0 <= i < |r| ==> r[i].agent != SystemAgent
  {
    var ns := NonSystem(log);
    var n := if |ns| < 2 then |ns| else 2;
    seq(n, k requires 0 <= k < n => ns[|ns| - n + k])
  }

  function FormatEntry(e: ChatEntry): string
  {
    e.agent + ": " + e.message
  }

  /** The recent history text of the debater prompt: each recent entry as
      `agent: message`, joined by newlines. */
  function RecentHistory(log: seq<ChatEntry>): (h: string)
    ensures var rs := RecentEntries(log);
      && (|rs| == 0 ==> h == "")
      && (|rs| == 1 ==> h == rs[0].agent + ": " + rs[0].message)
      && (|rs| == 2 ==> h == rs[0].agent + ": " + rs[0].message + "\n" + rs[1].agent + ": " + rs[1].message)
  {
    var rs := RecentEntries(log);
    var lines := seq(|rs|, i requires 0 <= i < |rs| => FormatEntry(rs[i]));
    assert |lines| == 2 ==> Join(lines, "\n") == FormatEntry(rs[0]) + "\n" + FormatEntry(rs[1]) by {
      if |lines| == 2 {
        assert lines[1..] == [FormatEntry(rs[1])];
      }
    }
    Join(lines, "\n")
  }

  /** Appending a `System` entry leaves the prompt's history as it was. */
  lemma {:induction false} SystemEntriesNotInHistory(log: seq<ChatEntry>, message: string)
    ensures RecentHistory(log + [ChatEntry(SystemAgent, message)]) == RecentHistory(log)
  {
    NonSystemAppend(log, ChatEntry(SystemAgent, message));
    assert NonSystem(log + [ChatEntry(SystemAgent, message)]) == NonSystem(log);
  }

  /** After a debater entry is appended, it is the last entry of the history
      and at most one earlier debater entry stays beside it. */
  lemma {:induction false} NewestEntryLast(log: seq<ChatEntry>, e: ChatEntry)
    requires e.agent != SystemAgent
    ensures var r := RecentEntries(log + [e]);
      && 1 <= |r| <= 2 && r[|r| - 1] == e
      && (|r| == 2 ==> |NonSystem(log)| > 0 && r[0] == NonSystem(log)[|NonSystem(log)| - 1])
  {
    NonSystemAppend(log, e);
  }

  /** The marker the server appends for a found image. */
  function ImageMarker(url: string): (m: string)
    ensures |m| == |url| + 10 && m[0] == ' ' && m[|m| - 1] == ']'
  {
    " [Image: " + url + "]"
  }

  /** The search query: `${characterName} ${imageDescription}`, to which
      `searchImage` adds ` image`. */
  function ImageQuery(characterName: string, description: string): (q: string)
    ensures |q| == |characterName| + |description| + 7
    ensures q[..|characterName|] == characterName && q[|q| - 6..] == " image"
  {
    characterName + " " + description + " image"
  }

  /** `imageRequest.slice(0, -1).trim()`: the request without its last
      character (meant to be the closing `]`), trimmed. */
  function ImageDescription(request: string): (d: string)
    requires request != []
    ensures |d| < |request| && IsTrimmed(d)
  {
    Trim(request[..|request| - 1])
  }

  /** `searchImage`'s result: the first result's image when it is a
      non-empty string, else `null`. */
  function FoundImage(firstImage: Option<string>): (url: Option<string>)
    ensures url.Some? ==> url == firstImage && url.value != []
    ensures firstImage.Some? && firstImage.value != [] ==> url == firstImage
  {
    if firstImage.Some? && firstImage.value != [] then firstImage else None
  }

  /** The entry text of a turn and the image URL sent with it. */
  datatype Narration = Narration(message: string, imageUrl: Option<string>)

  /** The narrator's reply turned into the entry text. An empty reply keeps
      the skip text. Otherwise the text is the trimmed part before the first
      `[IMAGE:`; a non-empty image request is searched for, and a found URL
      is appended as an `[Image: url]` marker. `None` is the search throwing. */
  function Narrate(content: string, characterName: string, imageSearch: string -> SearchOutcome): (r: Option<Narration>)
    ensures content == [] ==> r == Some(Narration(SkipText, None))
    ensures content != [] ==>
      var head := SplitHeadOf(content, ImageRequestTag);
      var asked := head.second.Some? && head.second.value != [];
      && (r.None? <==> asked && imageSearch(ImageQuery(characterName, ImageDescription(head.second.value))).SearchFailed?)
      && (r.Some? ==> r.value.message == Trim(head.first) + (if r.value.imageUrl.Some? then ImageMarker(r.value.imageUrl.value) else []))
      && (r.Some? && r.value.imageUrl.Some? ==> asked && r.value.imageUrl.value != [])
      && (!asked ==> r == Some(Narration(Trim(head.first), None)))
      && (asked ==>
            var results := imageSearch(ImageQuery(characterName, ImageDescription(head.second.value)));
            results.Results? ==> r.Some? && r.value.imageUrl == FoundImage(results.firstImage))
  {
    if content == [] then Some(Narration(SkipText, None))
    else
      var head := SplitHeadOf(content, ImageRequestTag);
      var text := Trim(head.first);
      if head.second.Some? && head.second.value != [] then
        match imageSearch(ImageQuery(characterName, ImageDescription(head.second.value)))
        case SearchFailed => None
        case Results(first) =>
          var url := FoundImage(first);
          Some(Narration(if url.Some? then text + ImageMarker(url.value) else text, url))
      else
        Some(Narration(text, None))
  }

  /** The regular expression `Rating:\s*(\d+)` matches at position `i`: the
      label, any white space, then at least one digit. */
  predicate RatingAt(s: string, i: nat): (b: bool)
    ensures b ==> i + |RatingLabel| < |s|
  {
    StartsAt(s, RatingLabel, i) &&
    var j := RunEnd(s, i + |RatingLabel|, IsSpace);
    j < |s| && IsDigit(s[j])
  }

  /** The judge's rating: `parseInt` of the digits of the leftmost match of
      `Rating:\s*(\d+)`, and 5 when there is none. Not clamped. */
  function ParseRating(verdict: string): (rating: nat)
    ensures (forall i: nat :: i < |verdict| ==> !RatingAt(verdict, i)) ==> rating == DefaultRating
  {
    match FindFrom((i: nat) => RatingAt(verdict, i), 0, |verdict|)
    case None => DefaultRating
    case Some(i) =>
      var start := RunEnd(verdict, i + |RatingLabel|, IsSpace);
      var end := RunEnd(verdict, start, IsDigit);
      RunEndRun(verdict, start, IsDigit);
      assert AllDigits(verdict[start..end]);
      DecimalValue(verdict[start..end])
  }

  /** The leftmost match decides: when the first `Rating:` followed by
      white space and digits comes after some text `pre`, the rating is the
      value of that digit run, leading zeros and all. */
  lemma {:induction false} RatingOfFirstMatch(pre: string, gap: string, digits: string, rest: string)
    requires forall k: nat :: k < |pre| ==> !RatingAt(pre + RatingLabel + gap + digits + rest, k)
    requires AllSpace(gap)
    requires digits != [] && AllDigits(digits)
    requires rest == [] || !IsDigit(rest[0])
    ensures ParseRating(pre + RatingLabel + gap + digits + rest) == DecimalValue(digits)
  {
    var s := pre + RatingLabel + gap + digits + rest;
    var i := |pre|;
    var gapStart := i + |RatingLabel|;
    var start := gapStart + |gap|;
    var end := start + |digits|;
    forall j | 0 <= j < |RatingLabel| ensures s[i + j] == RatingLabel[j] {
      assert s[i + j] == (pre + RatingLabel)[i + j];
    }
    forall k | gapStart <= k < start ensures IsSpace(s[k]) {
      assert s[k] == (pre + RatingLabel + gap)[k];
      assert s[k] == gap[k - gapStart];
    }
    forall k | start <= k < end ensures IsDigit(s[k]) {
      assert s[k] == (pre + RatingLabel + gap + digits)[k];
      assert s[k] == digits[k - start];
    }
    assert s[start] == digits[0];
    RunEndIsUnique(s, gapStart, start, IsSpace);
    assert RatingAt(s, i);
    var p := (k: nat) => RatingAt(s, k);
    forall k: nat | k < i ensures !p(k) {
      assert !RatingAt(s, k);
    }
    FindFromFirst(p, 0, |s|, i);
    if end < |s| {
      assert s[end] == rest[0];
    }
    RunEndIsUnique(s, start, end, IsDigit);
    assert s[start..end] == digits by {
      forall k | 0 <= k < |digits| ensures s[start..end][k] == digits[k] {
        assert s[start + k] == (pre + RatingLabel + gap + digits)[start + k];
      }
    }
  }

  /** A verdict in the requested format, `Rating:`, white space, the number,
      then text that does not start with a digit, rates that number, however
      large. */
  lemma {:induction false} RatingOfVerdict(gap: string, n: nat, rest: string)
    requires AllSpace(gap)
    requires rest == [] || !IsDigit(rest[0])
    ensures ParseRating(RatingLabel + gap + NatToString(n) + rest) == n
  {
    assert [] + RatingLabel + gap + NatToString(n) + rest == RatingLabel + gap + NatToString(n) + rest;
    RatingOfFirstMatch([], gap, NatToString(n), rest);
    DecimalOfNatToString(n);
  }

  /** `Math.floor(MIN_DAMAGE + (rating / 10) * (MAX_DAMAGE - MIN_DAMAGE))`,
      computed exactly. */
  function Damage(rating: nat): (d: nat)
    ensures d >= MinDamage
    ensures 1 <= rating <= 10 ==> MinDamage < d <= MaxDamage
  {
    MinDamage + rating * (MaxDamage - MinDamage) / 10
  }

  /** A better rating never deals less damage. */
  lemma DamageMonotone(r1: nat, r2: nat)
    requires r1 <= r2
    ensures Damage(r1) <= Damage(r2)
  {
    assert r1 * 15 <= r2 * 15;
  }

  /** The top rating deals the maximum, the default rating 12, a zero 5. */
  lemma DamageAnchors()
    ensures Damage(10) == MaxDamage
    ensures Damage(DefaultRating) == 12
    ensures Damage(0) == MinDamage
  {
  }

  function Max0(x: int): int
  {
    if x < 0 then 0 else x
  }

  /** `newHealth = {...health}` with `character{target+1}` lowered by the
      damage, floored at 0 and not capped above. A target past the second
      agent names neither field, so neither changes. */
  function ApplyDamage(health: Health, target: nat, damage: nat): (h: Health)
    ensures target != 0 ==> h.character1 == health.character1
    ensures target != 1 ==> h.character2 == health.character2
    ensures target == 0 ==> h.character1 == Max0(health.character1 - damage)
    ensures target == 1 ==> h.character2 == Max0(health.character2 - damage)
    ensures target == 0 ==> h.character1 >= 0 && (health.character1 > 0 && damage > 0 ==> h.character1 < health.character1)
    ensures target == 1 ==> h.character2 >= 0 && (health.character2 > 0 && damage > 0 ==> h.character2 < health.character2)
  {
    if target == 0 then health.(character1 := Max0(health.character1 - damage))
    else if target == 1 then health.(character2 := Max0(health.character2 - damage))
    else health
  }

  /** `agents[k]`, with `undefined` as `None`. */
  function AgentAt(agents: seq<string>, k: nat): Option<string>
  {
    if k < |agents| then Some(agents[k]) else None
  }

  /** Character 1 down: the second agent wins; otherwise character 2 down:
      the first agent wins; character 1 is checked first. */
  function Winner(agents: seq<string>, h: Health): (w: Option<string>)
    ensures w.Some? ==> h.character1 <= 0 || h.character2 <= 0
    ensures |agents| >= 2 ==> (w.Some? <==> h.character1 <= 0 || h.character2 <= 0)
    ensures |agents| >= 2 && h.character1 <= 0 ==> w == Some(agents[1])
    ensures |agents| >= 1 && h.character1 > 0 && h.character2 <= 0 ==> w == Some(agents[0])
  {
    if h.character1 <= 0 then AgentAt(agents, 1)
    else if h.character2 <= 0 then AgentAt(agents, 0)
    else None
  }

  /** What the acting agent says: the entry to push, the index of the
      agent it strikes, and the image URL found for it. */
  datatype Speech = Speech(entry: ChatEntry, target: nat, imageUrl: Option<string>)

  /** Lines 30-71: pick the acting agent, ask the narrator and read its
      reply; `None` when there are no agents, the narrator fails or the
      image search throws. */
  function Speak(agents: seq<string>, log: seq<ChatEntry>,
                 narrator: TurnPrompt -> ChainOutcome, imageSearch: string -> SearchOutcome): (r: Option<Speech>)
    ensures |agents| == 0 ==> r.None?
    ensures |agents| > 0 ==>
      var acting := ActingIndex(|log|, |agents|);
      var prompt := TurnPrompt(agents[acting], CharacterName(agents[acting]),
                               agents[TargetIndex(acting, |agents|)], RecentHistory(log));
      (r.Some? <==> narrator(prompt).Replied? && Narrate(narrator(prompt).content, CharacterName(agents[acting]), imageSearch).Some?)
    ensures r.Some? ==>
      var acting := ActingIndex(|log|, |agents|);
      var prompt := TurnPrompt(agents[acting], CharacterName(agents[acting]),
                               agents[TargetIndex(acting, |agents|)], RecentHistory(log));
      && r.value.entry.agent == agents[acting]
      && r.value.target == TargetIndex(acting, |agents|)
      && narrator(prompt).Replied?
      && Narrate(narrator(prompt).content, CharacterName(agents[acting]), imageSearch)
         == Some(Narration(r.value.entry.message, r.value.imageUrl))
  {
    if |agents| == 0 then None
    else
      var acting := ActingIndex(|log|, |agents|);
      var current := agents[acting];
      var target := TargetIndex(acting, |agents|);
      var name := CharacterName(current);
      match narrator(TurnPrompt(current, name, agents[target], RecentHistory(log)))
      case ChainFailed => None
      case Replied(content) =>
        match Narrate(content, name, imageSearch)
        case None => None
        case Some(n) => Some(Speech(ChatEntry(current, n.message), target, n.imageUrl))
  }

  /** One advance: the entry pushed onto the stored log (if any) and the
      response. */
  datatype Turn = Turn(pushed: Option<ChatEntry>, response: EventResponse)

  /** What one call does to a match found in the store, given its agents, its
      log before the call and the client's health snapshot. */
  function Advance(agents: seq<string>, log: seq<ChatEntry>, health: Health,
                   narrator: TurnPrompt -> ChainOutcome, imageSearch: string -> SearchOutcome,
                   judge: string -> ChainOutcome): (t: Turn)
    ensures !t.response.NotFound?
    ensures var sp := Speak(agents, log, narrator, imageSearch);
      && (t.pushed.Some? <==> sp.Some?)
      && (sp.Some? ==> t.pushed == Some(sp.value.entry))
      && (t.response.Played? ==> sp.Some? && t.response.imageUrl == sp.value.imageUrl)
    ensures t.pushed.None? ==> t.response == ServerError
    ensures t.pushed.Some? ==>
      && |agents| > 0
      && t.pushed.value.agent == agents[ActingIndex(|log|, |agents|)]
      && (t.response.Played? <==> judge(t.pushed.value.message).Replied?)
    ensures t.response.Played? ==>
      var acting := ActingIndex(|log|, |agents|);
      var target := TargetIndex(acting, |agents|);
      var verdict := judge(t.response.newMessage.message);
      && t.pushed == Some(t.response.newMessage)
      && verdict.Replied?
      && t.response.damage == Damage(ParseRating(verdict.content))
      && t.response.health == ApplyDamage(health, target, t.response.damage)
      && t.response.winner == Winner(agents, t.response.health)
    ensures |agents| == 0 ==> t == Turn(None, ServerError)
  {
    match Speak(agents, log, narrator, imageSearch)
    case None => Turn(None, ServerError)
    case Some(sp) =>
      match judge(sp.entry.message)
      case ChainFailed => Turn(Some(sp.entry), ServerError)
      case Replied(verdict) =>
        var damage := Damage(ParseRating(verdict));
        var h := ApplyDamage(health, sp.target, damage);
        Turn(Some(sp.entry), Played(sp.entry, h, Winner(agents, h), damage, sp.imageUrl))
  }

  /** When both chains reply and the image search does not throw, the turn
      is played: the acting agent's entry is pushed and the answer is a 200
      carrying that entry. */
  lemma {:induction false} RepliesPlayTheTurn(agents: seq<string>, log: seq<ChatEntry>, health: Health,
                                              narrator: TurnPrompt -> ChainOutcome, imageSearch: string -> SearchOutcome,
                                              judge: string -> ChainOutcome)
    requires |agents| > 0
    requires forall p :: narrator(p).Replied?
    requires forall q :: imageSearch(q).Results?
    requires forall m :: judge(m).Replied?
    ensures var t := Advance(agents, log, health, narrator, imageSearch, judge);
      && t.response.Played?
      && t.pushed == Some(t.response.newMessage)
      && t.response.newMessage.agent == agents[ActingIndex(|log|, |agents|)]
  {
    var acting := ActingIndex(|log|, |agents|);
    var prompt := TurnPrompt(agents[acting], CharacterName(agents[acting]),
                             agents[TargetIndex(acting, |agents|)], RecentHistory(log));
    assert narrator(prompt).Replied?;
    var content := narrator(prompt).content;
    if content != [] {
      var head := SplitHeadOf(content, ImageRequestTag);
      if head.second.Some? && head.second.value != [] {
        assert imageSearch(ImageQuery(CharacterName(agents[acting]), ImageDescription(head.second.value))).Results?;
      }
    }
    assert Narrate(content, CharacterName(agents[acting]), imageSearch).Some?;
  }

  /** A timed-out or failed narrator call answers 500 and stores nothing. */
  lemma NarratorFailureStoresNothing(agents: seq<string>, log: seq<ChatEntry>, health: Health,
                                     narrator: TurnPrompt -> ChainOutcome, imageSearch: string -> SearchOutcome,
                                     judge: string -> ChainOutcome)
    requires |agents| > 0
    requires var acting := ActingIndex(|log|, |agents|);
      narrator(TurnPrompt(agents[acting], CharacterName(agents[acting]),
                          agents[TargetIndex(acting, |agents|)], RecentHistory(log))).ChainFailed?
    ensures Advance(agents, log, health, narrator, imageSearch, judge) == Turn(None, ServerError)
  {
  }

  /** The entry is stored before the judge is asked: a failing judge still
      leaves it in the log, while the response is a 500. */
  lemma JudgeFailureKeepsEntry(agents: seq<string>, log: seq<ChatEntry>, health: Health,
                               narrator: TurnPrompt -> ChainOutcome, imageSearch: string -> SearchOutcome,
                               judge: string -> ChainOutcome)
    requires forall m :: judge(m).ChainFailed?
    ensures var t := Advance(agents, log, health, narrator, imageSearch, judge);
      t.response == ServerError && (t.pushed.Some? ==> t.pushed.value.agent == agents[ActingIndex(|log|, |agents|)])
    ensures var sp := Speak(agents, log, narrator, imageSearch);
      sp.Some? ==> Advance(agents, log, health, narrator, imageSearch, judge).pushed == Some(sp.value.entry)
  {
  }

  /** The 200 answer with two agents: only the character of the agent who did
      not act loses health, and never below 0. */
  lemma {:induction false} PlayedHitsOnlyTarget(agents: seq<string>, log: seq<ChatEntry>, health: Health,
                                                narrator: TurnPrompt -> ChainOutcome, imageSearch: string -> SearchOutcome,
                                                judge: string -> ChainOutcome)
    requires |agents| == 2
    ensures var t := Advance(agents, log, health, narrator, imageSearch, judge);
      t.response.Played? ==>
        var h := t.response.health;
        if |log| % 2 == 0 then h.character1 == health.character1 && h.character2 == Max0(health.character2 - t.response.damage)
        else h.character2 == health.character2 && h.character1 == Max0(health.character1 - t.response.damage)
  {
    var acting := ActingIndex(|log|, 2);
    TwoAgentsAlternate(|log|);
    assert TargetIndex(acting, 2) == 1 - acting;
  }

  /** Lines 57-71 step by step: `newMessage.message` starts as the skip text
      and `imageUrl` as `null`, and both are reassigned as the reply is
      read. `ok` is false when the image search throws. */
  method ComposeMessage(content: string, characterName: string, imageSearch: string -> SearchOutcome)
    returns (ok: bool, message: string, imageUrl: Option<string>)
    ensures ok <==> Narrate(content, characterName, imageSearch).Some?
    ensures ok ==> Narrate(content, characterName, imageSearch) == Some(Narration(message, imageUrl))
  {
    ok := true;
    message := SkipText;
    imageUrl := None;
    if content != [] {
      var head := SplitHeadOf(content, ImageRequestTag);
      message := Trim(head.first);
      if head.second.Some? && head.second.value != [] {
        var results := imageSearch(ImageQuery(characterName, ImageDescription(head.second.value)));
        if results.SearchFailed? {
          ok := false;
          return;
        }
        imageUrl := FoundImage(results.firstImage);
        if imageUrl.Some? {
          message := message + ImageMarker(imageUrl.value);
        }
      }
    }
  }

  /** Lines 87-97 step by step: the rating and damage, the copied health map
      with the target's field reassigned, and `winner` reassigned from `null`. */
  method Score(agents: seq<string>, health: Health, target: nat, verdict: string)
    returns (damage: nat, newHealth: Health, winner: Option<string>)
    ensures damage == Damage(ParseRating(verdict))
    ensures newHealth == ApplyDamage(health, target, damage)
    ensures winner == Winner(agents, newHealth)
  {
    damage := Damage(ParseRating(verdict));
    newHealth := health;
    if target == 0 {
      newHealth := newHealth.(character1 := Max0(newHealth.character1 - damage));
    } else if target == 1 {
      newHealth := newHealth.(character2 := Max0(newHealth.character2 - damage));
    }
    winner := None;
    if newHealth.character1 <= 0 {
      winner := AgentAt(agents, 1);
    } else if newHealth.character2 <= 0 {
      winner := AgentAt(agents, 0);
    }
  }

  /** Lines 30-71 step by step, up to the entry that is pushed. */
  method SpeakTurn(agents: seq<string>, log: seq<ChatEntry>,
                   narrator: TurnPrompt -> ChainOutcome, imageSearch: string -> SearchOutcome)
    returns (speech: Option<Speech>)
    ensures speech == Speak(agents, log, narrator, imageSearch)
  {
    if |agents| == 0 {
      return None;
    }
    var acting := ActingIndex(|log|, |agents|);
    var current := agents[acting];
    var target := TargetIndex(acting, |agents|);
    var name := CharacterName(current);
    var reply := narrator(TurnPrompt(current, name, agents[target], RecentHistory(log)));
    if reply.ChainFailed? {
      return None;
    }
    var ok, message, imageUrl := ComposeMessage(reply.content, name, imageSearch);
    if !ok {
      return None;
    }
    speech := Some(Speech(ChatEntry(current, message), target, imageUrl));
  }

  /** The log went from `before` to `after` and `response` was answered,
      as `Advance` says for that log. */
  predicate TurnTaken(agents: seq<string>, before: seq<ChatEntry>, after: seq<ChatEntry>, health: Health,
                      narrator: TurnPrompt -> ChainOutcome, imageSearch: string -> SearchOutcome,
                      judge: string -> ChainOutcome, response: EventResponse)
  {
    var t := Advance(agents, before, health, narrator, imageSearch, judge);
    && response == t.response
    && after == before + (if t.pushed.Some? then [t.pushed.value] else [])
  }

  /** Lines 30-97 on the record the store handed out: the entry is pushed
      onto its log before the judge is asked, and the log gains exactly the
      entry `Advance` pushes. */
  method PlayTurn(m: MatchStore.Match, health: Health,
                  narrator: TurnPrompt -> ChainOutcome, imageSearch: string -> SearchOutcome,
                  judge: string -> ChainOutcome) returns (response: EventResponse)
    modifies m
    ensures TurnTaken(m.agents, old(m.chatLog), m.chatLog, health, narrator, imageSearch, judge, response)
  {
    ghost var log := m.chatLog;
    var speech := SpeakTurn(m.agents, m.chatLog, narrator, imageSearch);
    if speech.None? {
      return ServerError;
    }
    var entry := speech.value.entry;
    m.Push(entry);
    var verdict := judge(entry.message);
    if verdict.ChainFailed? {
      return ServerError;
    }
    var damage, newHealth, winner := Score(m.agents, health, speech.value.target, verdict.content);
    response := Played(entry, newHealth, winner, damage, speech.value.imageUrl);
  }

  /** The `game-event` handler against the store: a missing id is a 404 and
      changes nothing; otherwise the stored record (the same object the store
      hands out) gets exactly the entry `Advance` pushes, and a 200 writes the
      record back, so the store keeps the same records under the same ids. */
  method HandleGameEvent(store: MatchStore.MatchManager, matchId: string, health: Health,
                         narrator: TurnPrompt -> ChainOutcome, imageSearch: string -> SearchOutcome,
                         judge: string -> ChainOutcome) returns (response: EventResponse)
    modifies store, if matchId in store.matches then {store.matches[matchId]} else {}
    ensures store.matches == old(store.matches)
    ensures matchId !in store.matches ==> response == NotFound
    ensures matchId in store.matches ==>
      var m := store.matches[matchId];
      TurnTaken(m.agents, old(m.chatLog), m.chatLog, health, narrator, imageSearch, judge, response)
  {
    var found := store.GetMatch(matchId);
    if found.None? {
      return NotFound;
    }
    var m := found.value;
    ghost var log := m.chatLog;
    response := PlayTurn(m, health, narrator, imageSearch, judge);
    ghost var after := m.chatLog;
    if response.Played? {
      store.UpdateMatch(matchId, m);
    }
    assert m.chatLog == after;
  }
}
