/**
 * The single consumer loop of mc-sync (`process`): it takes the merged events
 * (Discord messages, server output lines, console lines) one at a time, keeps
 * the set of online players, and routes each event to the server's stdin, the
 * local stdout, the verbose and general Discord channels, or a reply.
 */
module Dispatcher {
  import opened Wrappers
  import Text
  import opened LogPatterns
  import opened Bridge

  type ChannelId = nat

  /** The parts of a Discord message the loop looks at. */
  datatype Message = Message(author: string, content: string, channel: ChannelId)

  /** The events merged into `event_rx`. */
  datatype Event =
    | Discord(message: Message)
    | Minecraft(line: string)
    | Stdin(line: string)

  /** A message posted in answer to a Discord message, in that message's channel. */
  datatype Reply = Reply(channel: ChannelId, text: string)

  /** A `!online` question, with the players online when it was processed. */
  datatype Query = Query(channel: ChannelId, players: set<string>)

  /** What handling some events sends where, in order. */
  datatype Effect = Effect(
    child: seq<string>,
    stdout: seq<string>,
    verbose: seq<string>,
    general: seq<string>,
    queries: seq<Query>)

  const NoEffect := Effect([], [], [], [], [])

  function Then(a: Effect, b: Effect): Effect {
    Effect(a.child + b.child, a.stdout + b.stdout, a.verbose + b.verbose, a.general + b.general,
           a.queries + b.queries)
  }

  /** Messages the bots themselves post are not relayed back. */
  predicate FromBridge(m: Message) {
    m.author == "mc-boot" || m.author == "mc-sync"
  }

  predicate AsksOnline(m: Message) {
    Text.Trim(m.content) == ONLINE_COMMAND
  }

  /** `format!("{} online: {}", count, names joined with ", ")`. */
  function OnlineReply(count: nat, names: seq<string>): string {
    Text.Decimal(count) + " online: " + Text.Join(names, ", ")
  }

  /** `text` answers `!online` for the set `s`, listing its names in some order. */
  ghost predicate IsOnlineReply(text: string, s: set<string>) {
    exists names :: Text.IsListing(names, s) && text == OnlineReply(|s|, names)
  }

  /** How one classified server line changes the set: JOIN adds the name, QUIT removes it. */
  function Apply(players: set<string>, ev: Option<LogEvent>): set<string> {
    match ev
    case Some(Joined(n)) => players + {n}
    case Some(Left(n)) => players - {n}
    case _ => players
  }

  /** How one server line changes the set. */
  function Track(players: set<string>, line: string): set<string> {
    Apply(players, Parse(line))
  }

  /** What handling one event does, given the players online before it. */
  function Route(players: set<string>, e: Event): (set<string>, Effect) {
    match e
    case Discord(m) =>
      if FromBridge(m) then (players, NoEffect)
      else if AsksOnline(m) then (players, Effect([], [], [], [], [Query(m.channel, players)]))
      else (players, Effect([SayCommand(m.author, m.content)], [], [], [], []))
    case Minecraft(line) =>
      var general := match Parse(line) case Some(ev) => [Describe(ev)] case None => [];
      (Track(players, line), Effect([], [line + "\n"], [line], general, []))
    case Stdin(line) =>
      (players, Effect([line + "\n"], [], [], [], []))
  }

  /** Handling `events` in order, starting from `players`. */
  function Dispatch(players: set<string>, events: seq<Event>): (set<string>, Effect)
    decreases |events|
  {
    if events == [] then (players, NoEffect)
    else
      var (before, done) := Dispatch(players, events[..|events| - 1]);
      var (after, last) := Route(before, events[|events| - 1]);
      (after, Then(done, last))
  }

  /**
   * One turn of `process`'s loop: handles `event` with `online` the players
   * online before it. `reply` is the answer to an `!online` question, if any.
   */
  method Handle(online: set<string>, event: Event)
    returns (players: set<string>, effect: Effect, reply: Option<Reply>)
    ensures players == Route(online, event).0
    ensures effect == Route(online, event).1.(queries := [])
    ensures reply.None? <==> Route(online, event).1.queries == []
    ensures reply.Some? ==>
      && Route(online, event).1.queries == [Query(reply.value.channel, online)]
      && IsOnlineReply(reply.value.text, online)
  {
    players, effect, reply := online, NoEffect, None;
    match event {
      case Discord(message) =>
        if message.author == "mc-boot" || message.author == "mc-sync" {
          return;
        }
        if Text.Trim(message.content) == ONLINE_COMMAND {
          var names := Text.Enumerate(online);
          reply := Some(Reply(message.channel, OnlineReply(|online|, names)));
          return;
        }
        effect := effect.(child := [SayCommand(message.author, message.content)]);
      case Minecraft(line) =>
        var general;
        players, general := HandleServerLine(online, line);
        effect := effect.(stdout := [line + "\n"], verbose := [line], general := general);
      case Stdin(line) =>
        effect := effect.(child := [line + "\n"]);
    }
  }

  /**
   * The server-line arm of `process`: JOIN, QUIT, ACHIEVEMENT and MESSAGE are
   * tried in turn; the first that matches updates the set and gives the
   * sentence for the general channel.
   */
  method HandleServerLine(online: set<string>, line: string) returns (players: set<string>, general: seq<string>)
    ensures players == Track(online, line)
    ensures general == match Parse(line) case Some(ev) => [Describe(ev)] case None => []
  {
    players, general := online, [];
    var join := MatchJoin(line);
    if join.Some? {
      players := online + {join.value};
      general := [Describe(Joined(join.value))];
      return;
    }
    var quit := MatchQuit(line);
    if quit.Some? {
      players := online - {quit.value};
      general := [Describe(Left(quit.value))];
      return;
    }
    var achievement := MatchAchievement(line);
    if achievement.Some? {
      general := [Describe(Advanced(achievement.value.0, achievement.value.1))];
      return;
    }
    var chat := MatchMessage(line);
    if chat.Some? {
      general := [Describe(Chatted(chat.value.0, chat.value.1))];
    }
  }

  /**
   * `process`: consumes the events in order, starting with nobody online, and
   * returns the final set and everything written to each destination.
   */
  method Process(events: seq<Event>)
    returns (online: set<string>, child: seq<string>, stdout: seq<string>, verbose: seq<string>,
             general: seq<string>, replies: seq<Reply>)
    ensures var (players, effect) := Dispatch({}, events);
      && online == players
      && child == effect.child && stdout == effect.stdout
      && verbose == effect.verbose && general == effect.general
      && |replies| == |effect.queries|
      && forall r :: 0 <= r < |replies| ==>
           replies[r].channel == effect.queries[r].channel
           && IsOnlineReply(replies[r].text, effect.queries[r].players)
  {
    online, child, stdout, verbose, general, replies := {}, [], [], [], [], [];
    ghost var queries: seq<Query> := [];
    var i := 0;
    while i < |events|
      invariant 0 <= i <= |events|
      invariant Dispatch({}, events[..i]) == (online, Effect(child, stdout, verbose, general, queries))
      invariant |replies| == |queries|
      invariant forall r :: 0 <= r < |replies| ==>
        replies[r].channel == queries[r].channel && IsOnlineReply(replies[r].text, queries[r].players)
    {
      assert events[..i + 1][..i] == events[..i];
      ghost var step := Route(online, events[i]);
      var players, effect, reply := Handle(online, events[i]);
      child, stdout, verbose, general := child + effect.child, stdout + effect.stdout,
        verbose + effect.verbose, general + effect.general;
      if reply.Some? {
        replies := replies + [reply.value];
      }
      queries := queries + step.1.queries;
      online := players;
      i := i + 1;
    }
    assert events[..i] == events;
  }

  /* ---- Properties of the routing ---- */

  /** A message posted by either bot changes nothing and sends nothing. */
  lemma BridgeMessagesIgnored(players: set<string>, m: Message)
    requires FromBridge(m)
    ensures Route(players, Discord(m)) == (players, NoEffect)
  {
  }

  /** `!online` (after trimming) is answered in its channel and nothing goes to the server. */
  lemma OnlineQueryAnswered(players: set<string>, m: Message)
    requires !FromBridge(m) && AsksOnline(m)
    ensures Route(players, Discord(m)).0 == players
    ensures Route(players, Discord(m)).1 == Effect([], [], [], [], [Query(m.channel, players)])
  {
  }

  /** Any other message becomes exactly one `/say` line, its content untrimmed. */
  lemma OtherMessageSaid(players: set<string>, m: Message)
    requires !FromBridge(m) && !AsksOnline(m)
    ensures Route(players, Discord(m)) ==
      (players, Effect(["/say [" + m.author + "]: " + m.content + "\n"], [], [], [], []))
  {
  }

  /** Every server line is echoed to stdout and the verbose channel; only a match reaches general. */
  lemma ServerLineRelayed(players: set<string>, line: string)
    ensures Route(players, Minecraft(line)).1.stdout == [line + "\n"]
    ensures Route(players, Minecraft(line)).1.verbose == [line]
    ensures Route(players, Minecraft(line)).1.child == [] && Route(players, Minecraft(line)).1.queries == []
    ensures Parse(line).None? ==>
      Route(players, Minecraft(line)) == (players, Effect([], [line + "\n"], [line], [], []))
  {
  }

  /** JOIN adds its name, QUIT removes it, the other two leave the set alone; each posts its sentence. */
  lemma ServerEventEffect(players: set<string>, line: string, ev: LogEvent)
    requires Parse(line) == Some(ev)
    ensures Route(players, Minecraft(line)).0 ==
      match ev
      case Joined(n) => players + {n}
      case Left(n) => players - {n}
      case _ => players
    ensures Route(players, Minecraft(line)).1.general == [Describe(ev)]
  {
  }

  /** A console line goes to the server verbatim, newline-terminated. */
  lemma ConsoleLineForwarded(players: set<string>, line: string)
    ensures Route(players, Stdin(line)) == (players, Effect([line + "\n"], [], [], [], []))
  {
  }

  /** With nobody online the answer to `!online` is exactly "0 online: ". */
  lemma EmptyOnlineReply(text: string)
    ensures IsOnlineReply(text, {}) <==> text == "0 online: "
  {
    if text == "0 online: " {
      assert Text.IsListing([], {});
      assert text == OnlineReply(0, []);
    }
    if IsOnlineReply(text, {}) {
      var names :| Text.IsListing(names, {}) && text == OnlineReply(0, names);
      Text.ListingLength(names, {});
    }
  }

  /** An answer to `!online` starts with the number of players and lists each of them once. */
  lemma OnlineReplyLists(text: string, s: set<string>)
    requires IsOnlineReply(text, s)
    ensures exists names ::
      && Text.IsListing(names, s) && |names| == |s|
      && text == Text.Decimal(|names|) + " online: " + Text.Join(names, ", ")
  {
    var names :| Text.IsListing(names, s) && text == OnlineReply(|s|, names);
    Text.ListingLength(names, s);
  }

  /* ---- The set as a fold over the server lines ---- */

  /** The server output lines among `events`, in order. */
  function ServerLines(events: seq<Event>): seq<string>
    decreases |events|
  {
    if events == [] then []
    else
      var rest := ServerLines(events[..|events| - 1]);
      match events[|events| - 1]
      case Minecraft(line) => rest + [line]
      case _ => rest
  }

  /** Folding `Track` over server lines. */
  function Players(players: set<string>, lines: seq<string>): set<string>
    decreases |lines|
  {
    if lines == [] then players else Track(Players(players, lines[..|lines| - 1]), lines[|lines| - 1])
  }

  /** Only server lines change the set: it is the fold of JOIN/QUIT over them. */
  lemma {:induction false} DispatchTracksServerLines(players: set<string>, events: seq<Event>)
    ensures Dispatch(players, events).0 == Players(players, ServerLines(events))
  {
    if events != [] {
      var init := events[..|events| - 1];
      DispatchTracksServerLines(players, init);
      match events[|events| - 1]
      case Minecraft(line) =>
        var lines := ServerLines(events);
        assert lines[..|lines| - 1] == ServerLines(init);
      case _ =>
    }
  }

  /** How each server line is classified, in order. */
  function Parsed(lines: seq<string>): (r: seq<Option<LogEvent>>)
    ensures |r| == |lines|
    decreases |lines|
  {
    if lines == [] then [] else Parsed(lines[..|lines| - 1]) + [Parse(lines[|lines| - 1])]
  }

  /** The `i`-th entry is the classification of the `i`-th line. */
  lemma {:induction false} ParsedAt(lines: seq<string>, i: int)
    requires 0 <= i < |lines|
    ensures Parsed(lines)[i] == Parse(lines[i])
    decreases |lines|
  {
    var k := |lines| - 1;
    if i < k {
      ParsedAt(lines[..k], i);
      assert lines[..k][i] == lines[i];
    }
  }

  /** Folding `Apply` over classified lines. */
  function Replay(players: set<string>, evs: seq<Option<LogEvent>>): set<string>
    decreases |evs|
  {
    if evs == [] then players else Apply(Replay(players, evs[..|evs| - 1]), evs[|evs| - 1])
  }

  /** Tracking the lines is replaying their classifications. */
  lemma {:induction false} PlayersReplay(players: set<string>, lines: seq<string>)
    ensures Players(players, lines) == Replay(players, Parsed(lines))
    decreases |lines|
  {
    if lines != [] {
      var k := |lines| - 1;
      PlayersReplay(players, lines[..k]);
      var evs := Parsed(lines);
      assert evs[..k] == Parsed(lines[..k]);
    }
  }

  /** At `i` a JOIN of `n` that no later QUIT of `n` follows. */
  predicate LiveJoin(evs: seq<Option<LogEvent>>, n: string, i: int) {
    && 0 <= i < |evs|
    && evs[i] == Some(Joined(n))
    && forall j :: i < j < |evs| ==> evs[j] != Some(Left(n))
  }

  /** One more line keeps (or ends) the standing of an earlier JOIN as QUIT decides. */
  lemma LiveJoinStep(evs: seq<Option<LogEvent>>, n: string, i: int)
    requires 0 <= i < |evs| - 1
    ensures LiveJoin(evs, n, i) <==> LiveJoin(evs[..|evs| - 1], n, i) && evs[|evs| - 1] != Some(Left(n))
  {
    var init := evs[..|evs| - 1];
    assert forall j :: i <= j < |init| ==> init[j] == evs[j];
  }

  /** Starting from nobody, `n` is present exactly when some JOIN of `n` has no later QUIT of `n`. */
  lemma {:induction false} ReplayIffLiveJoin(evs: seq<Option<LogEvent>>, n: string)
    ensures n in Replay({}, evs) <==> exists i :: LiveJoin(evs, n, i)
    decreases |evs|
  {
    if evs != [] {
      var k := |evs| - 1;
      var init := evs[..k];
      ReplayIffLiveJoin(init, n);
      if evs[k] == Some(Joined(n)) {
        assert LiveJoin(evs, n, k);
      } else if evs[k] == Some(Left(n)) {
        forall i | 0 <= i < |evs| ensures !LiveJoin(evs, n, i) {
          if i < k {
            LiveJoinStep(evs, n, i);
          }
        }
      } else {
        assert n in Apply(Replay({}, init), evs[k]) <==> n in Replay({}, init);
        if exists i :: LiveJoin(init, n, i) {
          var i :| LiveJoin(init, n, i);
          LiveJoinStep(evs, n, i);
        }
        if exists i :: LiveJoin(evs, n, i) {
          var i :| LiveJoin(evs, n, i);
          LiveJoinStep(evs, n, i);
        }
      }
    }
  }

  /** Starting from nobody, `n` is online exactly when some line JOINs `n` and no later line QUITs `n`. */
  lemma OnlineIffJoinedNotQuit(lines: seq<string>, n: string)
    ensures n in Players({}, lines) <==> exists i :: LiveJoin(Parsed(lines), n, i)
  {
    PlayersReplay({}, lines);
    ReplayIffLiveJoin(Parsed(lines), n);
  }
}
