/**
 * The browser page: how a chat bubble splits an `[Image: url]` marker off a
 * message and which side it is drawn on, which agent the turn banner names,
 * and the page state that `startDebate` and `continueBattle` update and on
 * which the polling effect depends. Server answers are parameters: the
 * `fetch` calls and the 5-second timer are not modelled.
 */
module ClientView {
  import opened Wrappers
  import opened JsText
  import opened Domain
  import TurnEngine
  import StartGame

  const ImageOpen: string := "[Image: "
  const StartErrorText: string := "An error occurred while starting the debate."

  /** The length of what `https?:\/\/` matches at `p`: 8, 7, or 0 for no match. */
  function SchemeLength(s: string, p: nat): (n: nat)
    ensures n == 0 || n == 7 || n == 8
    ensures n > 0 ==> p + n <= |s|
  {
    if StartsAt(s, "https://", p) then 8 else if StartsAt(s, "http://", p) then 7 else 0
  }

  /** The scheme found at `k` in `t` is the one found at `off + k` in a
      string `s` that `t` agrees with from `off` on. */
  lemma {:induction false} SchemeShift(s: string, t: string, off: nat, k: nat)
    requires off + |t| <= |s|
    requires forall j {:trigger t[j]} :: 0 <= j < |t| ==> t[j] == s[off + j]
    requires k + 8 <= |t|
    ensures SchemeLength(t, k) == SchemeLength(s, off + k)
  {
    StartsAtShift(s, t, off, "https://", k);
    StartsAtShift(s, t, off, "http://", k);
  }

  /** `[^\s\]]`. */
  predicate IsUrlChar(c: char)
  {
    !IsSpace(c) && c != ']'
  }

  /** The regular expression `\[Image: (https?:\/\/[^\s\]]+)\]` matches at `i`. */
  predicate MarkerAt(s: string, i: nat): (b: bool)
    ensures b ==> i + |ImageOpen| + 8 < |s|
  {
    StartsAt(s, ImageOpen, i) &&
    var b := i + |ImageOpen|;
    var n := SchemeLength(s, b);
    n > 0 &&
    var e := RunEnd(s, b + n, IsUrlChar);
    b + n < e < |s| && s[e] == ']'
  }

  /** A string the capture group can match in full. */
  predicate IsImageUrl(u: string): (b: bool)
    ensures b ==> |u| > 7 && ' ' !in u && ']' !in u
  {
    var n := SchemeLength(u, 0);
    n > 0 && |u| > n && forall k :: 0 <= k < |u| ==> IsUrlChar(u[k])
  }

  /** What a bubble shows: its text and, when there is one, an image. */
  datatype Bubble = Bubble(text: string, imageUrl: Option<string>)

  /** The capture group of a marker is an image URL. */
  lemma {:induction false} CaptureIsImageUrl(s: string, i: nat)
    requires MarkerAt(s, i)
    ensures var b := i + |ImageOpen|;
      IsImageUrl(s[b..RunEnd(s, b + SchemeLength(s, b), IsUrlChar)])
  {
    var b := i + |ImageOpen|;
    var n := SchemeLength(s, b);
    var e := RunEnd(s, b + n, IsUrlChar);
    var url := s[b..e];
    assert forall j :: 0 <= j < |url| ==> url[j] == s[b + j];
    SchemeShift(s, url, b, 0);
    RunEndRun(s, b + n, IsUrlChar);
    forall k | 0 <= k < |url| ensures IsUrlChar(url[k]) {
      assert url[k] == s[b + k];
      if k < n {
        var scheme := if n == 8 then "https://" else "http://";
        assert s[b + k] == scheme[k];
      }
    }
  }

  /** `s` with the characters from `i` up to `j` taken out. */
  function Excise(s: string, i: nat, j: nat): (r: string)
    requires i <= j <= |s|
    ensures |r| == |s| - (j - i)
    ensures forall k {:trigger r[k]} :: 0 <= k < i ==> r[k] == s[k]
    ensures forall k {:trigger r[k]} :: i <= k < |r| ==> r[k] == s[k + (j - i)]
  {
    seq(|s| - (j - i), k requires 0 <= k < |s| - (j - i) => if k < i then s[k] else s[k + (j - i)])
  }

  /** Taking out `s[i..j]` leaves what is before `i` followed by what is
      from `j` on. */
  lemma {:induction false} ExciseIsSplice(s: string, i: nat, j: nat)
    requires i <= j <= |s|
    ensures Excise(s, i, j) == s[..i] + s[j..]
  {
    var r := Excise(s, i, j);
    var t := s[..i] + s[j..];
    forall k | 0 <= k < |r| ensures r[k] == t[k] {
      if k < i {
        assert t[k] == s[..i][k];
      } else {
        assert t[k] == s[j..][k - i];
      }
    }
  }

  /** The bubble for a message whose leftmost marker is at `i`: the capture
      group as the image, and the message without that marker, trimmed. */
  function CutMarker(message: string, i: nat): (b: Bubble)
    requires MarkerAt(message, i)
    ensures b.imageUrl.Some? && IsImageUrl(b.imageUrl.value)
    ensures IsTrimmed(b.text)
  {
    var b := i + |ImageOpen|;
    var e := RunEnd(message, b + SchemeLength(message, b), IsUrlChar);
    CaptureIsImageUrl(message, i);
    var url := message[b..e];
    Bubble(Trim(Excise(message, i, b + |url| + 1)), Some(url))
  }

  /** The bubble shows `url` and the text `text` for the marker at `i`: the
      message spells `[Image: url]` there, and `text` is the message with
      that span taken out (see `ExciseIsSplice`), trimmed. */
  predicate ShowsMarker(message: string, i: nat, url: string, text: string)
  {
    var b := i + |ImageOpen|;
    var close := b + |url| + 1;
    && close <= |message|
    && StartsAt(message, ImageOpen, i)
    && message[b..close - 1] == url
    && message[close - 1] == ']'
    && text == Trim(Excise(message, i, close))
  }

  /** What `CutMarker` shows: the very marker at `i`, and the rest of the
      message. */
  lemma {:induction false} CutMarkerShows(message: string, i: nat)
    requires MarkerAt(message, i)
    ensures var b := CutMarker(message, i);
      b.imageUrl.Some? && ShowsMarker(message, i, b.imageUrl.value, b.text)
  {
  }

  /** What `CutMarker` shows, given the end of the URL, the URL and the text
      left once the marker is taken out. */
  lemma {:induction false} CutMarkerIs(s: string, i: nat, e: nat, text: string, url: string)
    requires MarkerAt(s, i)
    requires RunEnd(s, i + |ImageOpen| + SchemeLength(s, i + |ImageOpen|), IsUrlChar) == e
    requires s[i + |ImageOpen|..e] == url
    requires Excise(s, i, i + |ImageOpen| + |url| + 1) == text
    ensures CutMarker(s, i) == Bubble(Trim(text), Some(url))
  {
    var b := i + |ImageOpen|;
    assert s[b..RunEnd(s, b + SchemeLength(s, b), IsUrlChar)] == url;
  }

  /** `ChatBubble`'s reading of a message: the capture group of the leftmost
      marker (or null), and the message with that one marker removed,
      trimmed. */
  function ExtractImage(message: string): (b: Bubble)
    ensures b.imageUrl.None? <==> forall i: nat :: i < |message| ==> !MarkerAt(message, i)
    ensures b.imageUrl.None? ==> b.text == Trim(message)
    ensures b.imageUrl.Some? ==> IsImageUrl(b.imageUrl.value)
    ensures IsTrimmed(b.text)
  {
    var p := (i: nat) => MarkerAt(message, i);
    var found := FindFrom(p, 0, |message|);
    if found.None? then
      assert forall i: nat :: i < |message| ==> !MarkerAt(message, i) by {
        forall i: nat | i < |message| ensures !MarkerAt(message, i) { assert !p(i); }
      }
      Bubble(Trim(message), None)
    else
      assert p(found.value);
      CutMarker(message, found.value)
  }

  /** A marker that lies wholly inside a prefix of `s` is a marker of that prefix. */
  lemma {:induction false} MarkerInPrefix(s: string, m: string, i: nat)
    requires |m| <= |s| && forall j {:trigger m[j]} :: 0 <= j < |m| ==> m[j] == s[j]
    requires MarkerAt(s, i)
    requires RunEnd(s, i + |ImageOpen| + SchemeLength(s, i + |ImageOpen|), IsUrlChar) < |m|
    ensures MarkerAt(m, i)
  {
    var b := i + |ImageOpen|;
    var n := SchemeLength(s, b);
    var e := RunEnd(s, b + n, IsUrlChar);
    StartsAtShift(s, m, 0, ImageOpen, i);
    SchemeShift(s, m, 0, b);
    RunEndInPrefix(s, m, b + n, IsUrlChar);
    assert m[e] == s[e];
  }

  /** A blank inside the window where a scheme would be cuts the scheme short. */
  lemma {:induction false} BlankEndsScheme(s: string, b: nat, p: nat)
    requires b <= p < |s| && s[p] == ' '
    ensures SchemeLength(s, b) == 0 || b + SchemeLength(s, b) <= p
  {
    var j := p - b;
    assert s[b + j] == ' ';
    if j < 8 {
      assert "https://"[j] != ' ';
    }
    if j < 7 {
      assert "http://"[j] != ' ';
    }
  }

  /** No scheme starts at a `[`. */
  lemma {:induction false} NoSchemeAtBracket(s: string, b: nat)
    requires b < |s| && s[b] == '['
    ensures SchemeLength(s, b) == 0
  {
    assert s[b + 0] == '[';
    assert "https://"[0] != '[' && "http://"[0] != '[';
  }

  /** A run of URL characters stops at the first blank. */
  lemma RunStopsAtBlank(s: string, start: nat, p: nat)
    requires start <= p < |s| && s[p] == ' '
    ensures RunEnd(s, start, IsUrlChar) <= p
  {
    RunEndRun(s, start, IsUrlChar);
  }

  /** When `s` continues a marker-free `m` with a blank and `[`, no marker of
      `s` starts inside `m`: the blank cannot sit inside a marker, except as
      the blank of `[Image: `, and then `[` follows where the scheme should. */
  lemma {:induction false} NoMarkerBeforeBlank(s: string, m: string, i: nat)
    requires |m| + 1 < |s| && s[|m|] == ' ' && s[|m| + 1] == '['
    requires forall j {:trigger m[j]} :: 0 <= j < |m| ==> m[j] == s[j]
    requires forall j: nat :: j < |m| ==> !MarkerAt(m, j)
    requires i < |m|
    ensures !MarkerAt(s, i)
  {
    var b := i + |ImageOpen|;
    if b > |m| {
      var j := |m| - i;
      if j == 7 {
        NoSchemeAtBracket(s, b);
      } else {
        assert s[i + j] == ' ';
        assert ImageOpen[j] != ' ';
      }
    } else {
      BlankEndsScheme(s, b, |m|);
      var n := SchemeLength(s, b);
      if n > 0 {
        RunStopsAtBlank(s, b + n, |m|);
        var e := RunEnd(s, b + n, IsUrlChar);
        if e < |m| && MarkerAt(s, i) {
          MarkerInPrefix(s, m, i);
        }
      }
    }
  }

  /** No marker of `m + ImageMarker(u)` starts inside `m` when `m` has none. */
  lemma {:induction false} NoMarkerBeforeAppended(m: string, u: string, i: nat)
    requires forall j: nat :: j < |m| ==> !MarkerAt(m, j)
    requires i < |m|
    ensures !MarkerAt(m + TurnEngine.ImageMarker(u), i)
  {
    var s := m + TurnEngine.ImageMarker(u);
    MarkerLayout(m, u);
    assert s[|m| + 1 + 0] == ImageOpen[0] == '[';
    NoMarkerBeforeBlank(s, m, i);
  }

  /** Where the parts of `m + ImageMarker(u)` sit: the text, a blank,
      `[Image: `, the URL and the closing bracket. */
  lemma {:induction false} MarkerLayout(m: string, u: string)
    ensures var s := m + TurnEngine.ImageMarker(u);
      && |s| == |m| + 1 + |ImageOpen| + |u| + 1
      && (forall j {:trigger m[j]} :: 0 <= j < |m| ==> s[j] == m[j])
      && s[|m|] == ' '
      && (forall j :: 0 <= j < |ImageOpen| ==> s[|m| + 1 + j] == ImageOpen[j])
      && (forall j {:trigger u[j]} :: 0 <= j < |u| ==> s[|m| + 1 + |ImageOpen| + j] == u[j])
      && s[|s| - 1] == ']'
  {
    var tail := TurnEngine.ImageMarker(u);
    assert tail == " " + ImageOpen + u + "]";
    assert forall j :: 0 <= j < |ImageOpen| ==> tail[1 + j] == ImageOpen[j];
    assert forall j :: 0 <= j < |u| ==> tail[1 + |ImageOpen| + j] == u[j];
  }

  /** An image URL copied into `s` at `b` and followed by `]` keeps its scheme
      there, and its run of URL characters stops at the bracket. */
  lemma {:induction false} UrlRunAt(s: string, u: string, b: nat)
    requires IsImageUrl(u)
    requires b + |u| < |s| && s[b + |u|] == ']'
    requires forall j {:trigger u[j]} :: 0 <= j < |u| ==> u[j] == s[b + j]
    ensures SchemeLength(s, b) == SchemeLength(u, 0)
    ensures RunEnd(s, b + SchemeLength(s, b), IsUrlChar) == b + |u|
  {
    var n := SchemeLength(u, 0);
    var e := b + |u|;
    SchemeShift(s, u, b, 0);
    forall k | b + n <= k < e ensures IsUrlChar(s[k]) {
      assert s[b + (k - b)] == u[k - b];
    }
    RunEndIsUnique(s, b + n, e, IsUrlChar);
  }

  /** The marker the server appends is a marker, and its URL runs to the
      closing bracket. */
  lemma {:induction false} AppendedMarker(m: string, u: string)
    requires IsImageUrl(u)
    ensures var s := m + TurnEngine.ImageMarker(u);
      var b := |m| + 1 + |ImageOpen|;
      && MarkerAt(s, |m| + 1)
      && RunEnd(s, b + SchemeLength(s, b), IsUrlChar) == b + |u|
  {
    var s := m + TurnEngine.ImageMarker(u);
    var b := |m| + 1 + |ImageOpen|;
    MarkerLayout(m, u);
    UrlRunAt(s, u, b);
  }

  /** A marker with none before it is the one `ExtractImage` cuts. */
  lemma {:induction false} FirstMarkerAt(s: string, i: nat)
    requires MarkerAt(s, i)
    requires forall j: nat :: j < i ==> !MarkerAt(s, j)
    ensures ExtractImage(s) == CutMarker(s, i)
  {
    var p := (j: nat) => MarkerAt(s, j);
    assert p(i);
    forall k: nat | k < i ensures !p(k) {
      assert !MarkerAt(s, k);
    }
    FindFromFirst(p, 0, |s|, i);
  }

  /** When a bubble shows an image, it is the capture group of the leftmost
      marker, and the text is the message with that one marker removed,
      trimmed. */
  lemma {:induction false} ExtractImageShows(message: string)
    ensures var b := ExtractImage(message);
      b.imageUrl.Some? ==> exists i: nat ::
        && i < |message| && MarkerAt(message, i)
        && (forall k: nat :: k < i ==> !MarkerAt(message, k))
        && ShowsMarker(message, i, b.imageUrl.value, b.text)
  {
    var p := (i: nat) => MarkerAt(message, i);
    var found := FindFrom(p, 0, |message|);
    if found.Some? {
      var i := found.value;
      assert MarkerAt(message, i);
      forall k: nat | k < i ensures !MarkerAt(message, k) {
        assert !p(k);
      }
      FirstMarkerAt(message, i);
      CutMarkerShows(message, i);
    } else {
      forall i: nat | i < |message| ensures !MarkerAt(message, i) {
        assert !p(i);
      }
    }
  }

  /** The pieces of `m + ImageMarker(u)` around the URL: the URL itself, and
      the text and blank before the marker. */
  lemma {:induction false} AppendedPieces(m: string, u: string)
    ensures var s := m + TurnEngine.ImageMarker(u);
      var e := |m| + 1 + |ImageOpen| + |u|;
      && e < |s|
      && s[|m| + 1 + |ImageOpen|..e] == u
      && Excise(s, |m| + 1, e + 1) == m + " "
  {
    var s := m + TurnEngine.ImageMarker(u);
    var i := |m| + 1;
    var b := i + |ImageOpen|;
    var e := b + |u|;
    MarkerLayout(m, u);
    assert s[b..e] == u by {
      forall k | 0 <= k < |u| ensures s[b..e][k] == u[k] {
        assert s[b..e][k] == s[b + k];
      }
    }
    var kept := Excise(s, i, e + 1);
    assert kept == m + " " by {
      forall k | 0 <= k < |m| ensures kept[k] == m[k] {
        assert kept[k] == s[k];
      }
      assert kept[|m|] == s[|m|];
    }
  }

  /** Cutting the server's marker leaves the text and the blank before it. */
  lemma {:induction false} CutAppended(m: string, u: string)
    requires IsImageUrl(u)
    ensures MarkerAt(m + TurnEngine.ImageMarker(u), |m| + 1)
    ensures CutMarker(m + TurnEngine.ImageMarker(u), |m| + 1) == Bubble(Trim(m + " "), Some(u))
  {
    AppendedMarker(m, u);
    AppendedPieces(m, u);
    CutMarkerIs(m + TurnEngine.ImageMarker(u), |m| + 1, |m| + 1 + |ImageOpen| + |u|, m + " ", u);
  }

  /** Round trip with the server: trimmed, marker-free text followed by the
      marker the server appends for a URL the capture group accepts is shown
      as exactly that text and that URL. */
  lemma {:induction false} ImageMarkerRoundTrip(m: string, u: string)
    requires IsTrimmed(m)
    requires forall j: nat :: j < |m| ==> !MarkerAt(m, j)
    requires IsImageUrl(u)
    ensures ExtractImage(m + TurnEngine.ImageMarker(u)) == Bubble(m, Some(u))
  {
    var s := m + TurnEngine.ImageMarker(u);
    var i := |m| + 1;
    AppendedMarker(m, u);
    forall j: nat | j < |m| ensures !MarkerAt(s, j) {
      NoMarkerBeforeAppended(m, u, j);
    }
    assert !MarkerAt(s, |m|) by {
      assert s[|m| + 0] == ' ' && ImageOpen[0] != ' ';
    }
    FirstMarkerAt(s, i);
    CutAppended(m, u);
    TrimDropsTrailingBlank(m);
  }

  /** `agent.includes('1')`: the bubble is right-aligned, styled `agent1`
      and given the character-1 avatar. */
  function OnRightSide(agent: string): bool
  {
    '1' in agent
  }

  /** As written, the side depends on the digit 1 in the name, and generated
      names contain none unless the character does: both debaters' bubbles
      are drawn on the left with the character-2 avatar. */
  lemma {:induction false} SideIgnoresDebater(c1: string, p1: nat, c2: string, p2: nat)
    requires p1 < |StartGame.Prefixes| && p2 < |StartGame.Prefixes|
    requires '1' !in c1 && '1' !in c2
    ensures !OnRightSide(StartGame.AgentName(c1, p1))
    ensures !OnRightSide(StartGame.AgentName(c2, p2))
  {
    assert '1' !in StartGame.Prefixes[p1] && '1' !in StartGame.Prefixes[p2];
    assert '1' !in " " + StartGame.Suffix;
  }

  /** The side the layout evidently intends: the right side for the first
      debater, who argues for character 1. */
  function DebaterOnRight(agents: seq<string>, agent: string): bool
  {
    |agents| > 0 && agent == agents[0]
  }

  /** With the intended rule the two generated debaters always face each
      other, whatever their characters are called. */
  lemma {:induction false} DebatersFaceEachOther(characters: seq<string>, picks: seq<nat>)
    requires |characters| == 2 && characters[0] != characters[1]
    requires StartGame.ValidPicks(picks, 2)
    ensures var agents := StartGame.AgentNames(characters, picks);
      DebaterOnRight(agents, agents[0]) && !DebaterOnRight(agents, agents[1])
  {
    var agents := StartGame.AgentNames(characters, picks);
    var p0, p1 := StartGame.Prefixes[picks[0]], StartGame.Prefixes[picks[1]];
    if picks[0] == picks[1] {
      var lead := |p0| + 1;
      assert agents[0][lead..lead + |characters[0]|] == characters[0];
      assert agents[1][lead..lead + |characters[1]|] == characters[1];
    } else {
      assert agents[0][0] == p0[0] && agents[0][2] == p0[2];
      assert agents[1][0] == p1[0] && agents[1][2] == p1[2];
      assert p0[0] != p1[0] || p0[2] != p1[2];
    }
  }

  /** `getCurrentAgent()`: `agents[currentTurn % agents.length] || ''`; with
      the page's turn equal to the stored log's length, the agent the server
      lets act next. */
  function CurrentAgentOf(agents: seq<string>, turn: nat): (a: string)
    ensures |agents| == 0 ==> a == ""
    ensures |agents| > 0 ==> a == agents[TurnEngine.ActingIndex(turn, |agents|)]
  {
    if |agents| == 0 then "" else agents[turn % |agents|]
  }

  /** The note `continueBattle` appends after a debater's message. */
  function DamageNotice(agent: string, damage: nat): string
  {
    agent + " dealt " + NatToString(damage) + " damage!"
  }

  /** The number in the damage note reads back as the damage: the note is
      the agent, ` dealt `, `String(damage)` and ` damage!`. */
  lemma {:induction false} DamageNoticeReadsBack(agent: string, damage: nat)
    ensures var note := DamageNotice(agent, damage);
      var k := |agent| + |" dealt "|;
      && |note| == k + |NatToString(damage)| + |" damage!"|
      && note[..|agent|] == agent
      && AllDigits(note[k..|note| - |" damage!"|])
      && DecimalValue(note[k..|note| - |" damage!"|]) == damage
  {
    var note := DamageNotice(agent, damage);
    var k := |agent| + |" dealt "|;
    var digits := NatToString(damage);
    assert note[k..|note| - |" damage!"|] == digits;
    DecimalOfNatToString(damage);
  }

  /** An item of the page's log: an entry, or the bare error string the
      start failure stores in place of the log. */
  datatype LogItem = Entry(entry: ChatEntry) | Notice(text: string)

  function Entries(log: seq<ChatEntry>): (items: seq<LogItem>)
    ensures |items| == |log|
    ensures forall i :: 0 <= i < |log| ==> items[i] == Entry(log[i])
  {
    seq(|log|, i requires 0 <= i < |log| => Entry(log[i]))
  }

  /** The `HomePage` component's state. */
  class HomePage {
    var character1: string
    var character2: string
    var chatLog: seq<LogItem>
    var isLoading: bool
    var winner: Option<string>
    var matchId: Option<string>
    var agents: seq<string>
    var health: Health
    var currentTurn: nat

    /** A winner is only ever set to a non-empty (truthy) name. */
    predicate Valid()
      reads this
    {
      winner.Some? ==> winner.value != []
    }

    /** The initial `useState` values. */
    constructor ()
      ensures Valid()
      ensures character1 == [] && character2 == [] && chatLog == [] && !isLoading
      ensures winner == None && matchId == None && agents == []
      ensures health == Health(MaxHealth, MaxHealth) && currentTurn == 0
    {
      character1, character2 := [], [];
      chatLog := [];
      isLoading := false;
      winner := None;
      matchId := None;
      agents := [];
      health := Health(MaxHealth, MaxHealth);
      currentTurn := 0;
    }

    /** The effect on `[matchId, winner, chatLog]` schedules the next
        `continueBattle` exactly when a match id is set and no winner is. */
    predicate PollScheduled()
      reads this
    {
      matchId.Some? && matchId.value != [] && winner.None?
    }

    /** The start button is enabled. */
    predicate CanStart()
      reads this
    {
      !isLoading && character1 != [] && character2 != [] && !(matchId.Some? && matchId.value != [])
    }

    /** The agent the turn banner names: the one the server lets act at
        the page's turn, or `''` without agents. */
    function CurrentAgent(): (a: string)
      reads this
      ensures |agents| == 0 ==> a == ""
      ensures |agents| > 0 ==> a == agents[TurnEngine.ActingIndex(currentTurn, |agents|)]
    {
      CurrentAgentOf(agents, currentTurn)
    }

    /** `startDebate` given the `start-game` answer: log, winner, health and
        turn are reset first; a 200 then sets the match id, the non-`System`
        part of the log, the agents and turn 1, while a failure leaves the
        error string as the log and the previous match id in place. */
    method StartDebate(response: StartGame.StartResponse)
      requires Valid()
      modifies this
      ensures Valid()
      ensures character1 == old(character1) && character2 == old(character2) && !isLoading
      ensures winner == None && health == Health(MaxHealth, MaxHealth)
      ensures response.Started? ==>
        && matchId == Some(response.matchId)
        && chatLog == Entries(NonSystem(response.chatLog))
        && agents == response.agents
        && currentTurn == 1
      ensures response.Started? && response.matchId != [] ==> PollScheduled() && !CanStart()
      ensures response.Started? && |response.agents| == 2 ==> CurrentAgent() == response.agents[1]
      ensures response.StartFailed? ==>
        && matchId == old(matchId) && agents == old(agents)
        && chatLog == [Notice(StartErrorText)]
        && currentTurn == 0
    {
      isLoading := true;
      chatLog := [];
      winner := None;
      health := Health(MaxHealth, MaxHealth);
      currentTurn := 0;
      if response.Started? {
        matchId := Some(response.matchId);
        chatLog := Entries(NonSystem(response.chatLog));
        agents := response.agents;
        currentTurn := 1;
      } else {
        chatLog := [Notice(StartErrorText)];
      }
      isLoading := false;
    }

    /** `continueBattle` given the `game-event` answer. A 200 appends the
        debater's message and then the `System` damage note, takes the
        server's health, adds 1 to the turn and sets the winner if one came
        back; any other answer clears the match id, which stops the polling. */
    method ContinueBattle(response: TurnEngine.EventResponse)
      requires Valid()
      modifies this
      ensures Valid()
      ensures character1 == old(character1) && character2 == old(character2)
      ensures isLoading == old(isLoading) && agents == old(agents)
      ensures response.Played? ==>
        && chatLog == old(chatLog) + [Entry(response.newMessage),
                                      Entry(ChatEntry(SystemAgent, DamageNotice(response.newMessage.agent, response.damage)))]
        && health == response.health
        && currentTurn == old(currentTurn) + 1
        && winner == (if response.winner.Some? && response.winner.value != [] then response.winner else old(winner))
        && matchId == old(matchId)
      ensures !response.Played? ==>
        && matchId == None
        && chatLog == old(chatLog) && health == old(health)
        && currentTurn == old(currentTurn) && winner == old(winner)
      ensures !response.Played? ==> !PollScheduled()
      ensures response.Played? && response.winner.Some? && response.winner.value != [] ==> !PollScheduled()
      ensures response.Played? && response.winner.None? ==> PollScheduled() == old(PollScheduled())
    {
      if response.Played? {
        chatLog := chatLog + [Entry(response.newMessage)];
        health := response.health;
        currentTurn := currentTurn + 1;
        var notice := ChatEntry(SystemAgent, DamageNotice(response.newMessage.agent, response.damage));
        chatLog := chatLog + [Entry(notice)];
        if response.winner.Some? && response.winner.value != [] {
          winner := response.winner;
        }
      } else {
        matchId := None;
      }
    }
  }
}
