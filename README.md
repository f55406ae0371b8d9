# mc-suite: a verified model of its decision cores

mc-suite bridges a Minecraft server and a Discord guild. It has two bots and an
older single binary. mc-boot starts and hibernates the server's EC2 instance
according to who sits in the guild's voice channels. mc-sync runs the server
and relays between its log and Discord. The older binary keeps a registry of
online players and answers `!online`. This project models, in Dafny, the
sequential decisions these programs make. The async plumbing is removed, and
events and API replies arrive as ordered sequences.

- `text.dfy` (`Text`): Rust's `str::trim`, which trims Unicode White_Space;
  `usize` formatting as decimal; `join_with(", ")`; and `HashSet` iteration,
  modelled as a listing of the set in an order it does not fix.
- `search.dfy` (`Search`): how a backtracking regex picks among the ways a
  pattern `.*P(.*)…` can match. It takes the lexicographically greatest
  choice: the latest start of the fixed text first, then the longest first
  capture, then the longest second.
- `log_patterns.dfy` (`LogPatterns`): the four server-log patterns JOIN, QUIT,
  ACHIEVEMENT and MESSAGE. Each is a hand-written matcher that returns the
  captures the regex returns. The module also holds the first-match
  classification and the chat sentences.
- `bridge.dfy` (`Bridge`): the `!online` command and the `/say` console
  line, which both bridges use.
- `dispatcher.dfy` (`Dispatcher`): mc-sync's `process` loop, as a method over a
  sequence of events. A declarative fold `Dispatch` specifies it. A set of
  lemmas covers the routing and the online-player set.
- `registry.dfy` (`Registry`): the `State` registry, a class with a set field.
- `legacy_discord.dfy` (`LegacyDiscord`): `Disc::run` of the older binary.
- `ec2.dfy` (`Ec2`): the status check of each EC2 reply and the two polling
  loops. The API is a sequence of replies read through a cursor.
- `presence.dfy` (`Presence`): mc-boot's voice loop. It covers the
  saturating counter, the `online` flag set through `mem::replace`, and the
  start and stop triggers with their polls.

## Behaviour worth knowing

- mc-sync posts `"<name> joined the server!"` and `"<name> left the server."`.
- With nobody online, mc-sync answers `!online` with `"0 online: "`. Only the
  older `Disc::run` answers `"Nobody is online."`.
- A failed EC2 call ends the poll, and with it mc-boot's main task, with an
  error (the `?` at mc-boot/src/main.rs:218 and :247). It is not retried.
- mc-boot keeps a single `bool`, `online`, for the power state. It is set
  when the counter turns positive, before the start poll finishes.
- The counter saturates, so a leave at zero is lost and a following join
  gives 1 (`Presence.LeaveAtZeroForgotten`).

## Model

| member | source | states |
|---|---|---|
| Text.SkipForward | mc-sync/src/main.rs:123 | the scan from the left stops at the first character that is not Unicode whitespace, or at the end, having passed only whitespace |
| Text.SkipBackward | mc-sync/src/main.rs:123 | the scan from the right stops just after the last character that is not Unicode whitespace, or at the left bound, having passed only whitespace |
| Text.Trim | mc-sync/src/main.rs:123 | `str::trim`: the result sits in the input with only whitespace before and after it, and a non-empty result neither starts nor ends with whitespace |
| Text.TrimPadded | mc-sync/src/main.rs:123 | `trim(s)` is a slice of `s` with only whitespace before and after it |
| Text.TrimIsPadding | mc-sync/src/main.rs:123 | for a word with non-whitespace ends, `trim(s) == word` holds exactly when `s` is the word with whitespace on either side (both directions) |
| Text.Decimal | mc-sync/src/main.rs:125 | the count is printed as a non-empty string of digits, with a leading `0` only for zero, and zero is printed as the single digit `0` |
| Text.DecimalRoundTrip | mc-sync/src/main.rs:125 | reading the printed digits back gives the count |
| Text.Join | mc-sync/src/main.rs:125 | `join_with(", ")`: no items give the empty string; otherwise the result starts with the first item and is as long as the items plus one separator between each pair of neighbours |
| Text.JoinSnoc | mc-sync/src/main.rs:125 | joining is written left to right: the join of two or more items is the join of all but the last, the separator, then the last item; with the one-item and empty cases every item appears in order with the separator between neighbours |
| Text.ListingLength | mc-sync/src/main.rs:125 | a listing of a set, with each member once, has as many names as the set has members |
| Text.Enumerate | mc-sync/src/main.rs:125 | iterating the `HashSet` yields every member exactly once and nothing else |
| LogPatterns.JoinSite | mc-sync/src/main.rs:189-192 | JOIN matches exactly when the prefix, a name, a bracketed part with no `]`, " logged in with entity id ", and later " at " occur in that order. The reported match is the latest prefix, then the longest name. No match means none exists |
| LogPatterns.QuitSite | mc-sync/src/main.rs:194-195 | QUIT matches exactly when the prefix, a name and " left the game" occur in that order. The reported match is the latest prefix, then the longest name. No match means none exists |
| LogPatterns.AchievementSite | mc-sync/src/main.rs:197-199 | ACHIEVEMENT matches exactly when the prefix, a name, " has made the advancement [", a title and "]" occur in that order. The reported match is the latest prefix, the longest name, then the longest title. No match means none exists |
| LogPatterns.MessageSite | mc-sync/src/main.rs:201-202 | MESSAGE matches exactly when the prefix, "<", a name without space or `]`, and "> " occur in that order. The reported match is the latest prefix, then the longest name. No match means none exists |
| LogPatterns.MatchJoin | mc-sync/src/main.rs:143 | `JOIN.captures(line)`: `None` when the pattern has no match, otherwise capture 1 cut at the site `JoinSite` chooses (its shape is stated by `MatchJoinShape`) |
| LogPatterns.MatchQuit | mc-sync/src/main.rs:146 | `QUIT.captures(line)`: `None` when the pattern has no match, otherwise capture 1 cut at the site `QuitSite` chooses |
| LogPatterns.MatchAchievement | mc-sync/src/main.rs:149 | `ACHIEVEMENT.captures(line)`: `None` when the pattern has no match, otherwise captures 1 and 2 cut at the site `AchievementSite` chooses |
| LogPatterns.MatchMessage | mc-sync/src/main.rs:151 | `MESSAGE.captures(line)`: `None` when the pattern has no match, otherwise capture 1 and capture 2, the rest of the line, cut at the site `MessageSite` chooses |
| LogPatterns.MatchJoinShape | mc-sync/src/main.rs:190 | a JOIN capture `name` splits the line as `pre + "[Server thread/INFO]: " + name + tail`, where the tail is the `[...] logged in with entity id ... at ...` part |
| LogPatterns.MatchQuitShape | mc-sync/src/main.rs:195 | a QUIT capture splits the line as `pre + prefix + name + " left the game" + rest` |
| LogPatterns.MatchAchievementShape | mc-sync/src/main.rs:198 | an ACHIEVEMENT capture splits the line as `pre + prefix + name + " has made the advancement [" + title + "]" + rest` |
| LogPatterns.MatchMessageShape | mc-sync/src/main.rs:202 | a MESSAGE capture has a name without space or `]`, and splits the line as `pre + prefix + "<" + name + "> " + text` with the text running to the end of the line |
| LogPatterns.ParsePriority | mc-sync/src/main.rs:142-154 | classification is first-match in the order JOIN, QUIT, ACHIEVEMENT, MESSAGE, and a line is unclassified exactly when none of the four matches |
| LogPatterns.Parse | mc-sync/src/main.rs:142-154 | the if/else-if chain: the first of JOIN, QUIT, ACHIEVEMENT, MESSAGE that matches gives the event with its captures; none gives no event (its order is stated by `ParsePriority`) |
| LogPatterns.Describe | mc-sync/src/main.rs:144-151 | the four `format!` sentences: `"{name} joined the server!"`, `"{name} left the server."`, `"{name} unlocked achievement [{title}]!"`, `"[{name}]: {text}"` |
| Dispatcher.Route | mc-sync/src/main.rs:117-164 | one event's effect on the set and on each destination: bot messages do nothing, a trimmed `!online` asks a question about the current set, other messages give a `/say` line, server lines go to stdout and verbose and, when classified, update the set and post their sentence, console lines go to the server (its cases are stated by the lemmas below) |
| Dispatcher.Dispatch | mc-sync/src/main.rs:116-165 | the loop as a left fold of `Route` over the events, concatenating each destination's output in event order |
| Dispatcher.Handle | mc-sync/src/main.rs:117-164 | one turn of the loop does what `Route` prescribes. It answers `!online` exactly when `Route` asks for an answer, and that answer is a count-and-names reply for the current set |
| Dispatcher.HandleServerLine | mc-sync/src/main.rs:141-153 | a server line updates the set and yields a general-channel sentence exactly as its classification says, trying JOIN, QUIT, ACHIEVEMENT and MESSAGE in turn; an unclassified line yields no sentence |
| Dispatcher.Process | mc-sync/src/main.rs:106-168 | starting with nobody online, the final set and everything written to the server, stdout, the verbose and general channels equals the fold `Dispatch` over the events; each reply answers its question for the set at that moment |
| Dispatcher.BridgeMessagesIgnored | mc-sync/src/main.rs:119-121 | a message by `mc-boot` or `mc-sync` changes nothing and sends nothing |
| Dispatcher.OnlineQueryAnswered | mc-sync/src/main.rs:123-128 | a message that trims to `!online` gives only an answer in its own channel; nothing goes to the server and the set is unchanged |
| Dispatcher.OtherMessageSaid | mc-sync/src/main.rs:130-133 | any other message by someone else gives exactly one server line, `"/say [" + author + "]: " + content + "\n"`, with the content untrimmed |
| Dispatcher.ServerLineRelayed | mc-sync/src/main.rs:136-153 | every server line is echoed to stdout with a newline and posted to the verbose channel; an unclassified line does nothing else |
| Dispatcher.ServerEventEffect | mc-sync/src/main.rs:142-151 | JOIN adds the name; QUIT removes it; ACHIEVEMENT and MESSAGE leave the set alone; the general channel gets that event's sentence |
| Dispatcher.ConsoleLineForwarded | mc-sync/src/main.rs:158-163 | a console line goes to the server verbatim, followed by a newline, and nothing else happens |
| Dispatcher.EmptyOnlineReply | mc-sync/src/main.rs:124-125 | with nobody online the answer is exactly `"0 online: "` |
| Dispatcher.OnlineReplyLists | mc-sync/src/main.rs:124-125 | an answer is the set's size in decimal, `" online: "`, and the members joined by `", "`, each member exactly once |
| Dispatcher.DispatchTracksServerLines | mc-sync/src/main.rs:114-147 | only server lines change the set; it is the left fold of insert-on-JOIN and remove-on-QUIT over them |
| Dispatcher.ParsedAt | mc-sync/src/main.rs:141-153 | the classification sequence holds, at each position, the classification of that line |
| Dispatcher.PlayersReplay | mc-sync/src/main.rs:142-147 | tracking the lines is the same as replaying their classifications |
| Dispatcher.ReplayIffLiveJoin | mc-sync/src/main.rs:142-147 | replaying classifications from nobody, a name is present exactly when some JOIN of it has no later QUIT of it |
| Dispatcher.OnlineIffJoinedNotQuit | mc-sync/src/main.rs:142-147 | starting from nobody, a player is online exactly when some line JOINs them and no later line QUITs them |
| Registry.State.constructor | src/state.rs:3-6 | a default registry is empty |
| Registry.State.InsertPlayer | src/state.rs:9-13 | the player is afterwards in the set; a player already present leaves the set unchanged; no other name's membership changes |
| Registry.State.RemovePlayer | src/state.rs:15-17 | the player is afterwards absent; an absent player leaves the set unchanged; no other name's membership changes |
| Registry.State.Online | src/state.rs:19-21 | returns the current set and changes nothing |
| LegacyDiscord.Run | src/disc.rs:31-61 | over any received events, the lines written to the server are the `/say` lines of other users' messages other than exactly `!online`. The number of answers is the number of exact `!online` messages by others. Each answer, posted to the general channel, describes the registry. Failed sends and writes are skipped and the loop goes on |
| LegacyDiscord.Decide | src/disc.rs:34-58 | a message not by `mc-sync` whose content is exactly `!online` is answered, any other such message becomes `"/say [author]: content\n"`; `mc-sync`'s messages, other events and receive errors do nothing |
| LegacyDiscord.LegacyReply | src/disc.rs:39-45 | `"Nobody is online."` for a count of zero, otherwise the count, `" online: "` and the names joined by `", "` |
| LegacyDiscord.NobodyIffEmpty | src/disc.rs:39-45 | the answer is `"Nobody is online."` exactly when the registry is empty |
| LegacyDiscord.NonEmptyReplyLists | src/disc.rs:39-45 | with players online, the answer is their count, `" online: "`, and each name once, joined by `", "` |
| LegacyDiscord.PaddedCommandIsSaid | src/disc.rs:36-37 | the match is exact: `" !online"` is relayed as a `/say` line, not answered |
| Ec2.LowByte | mc-boot/src/main.rs:225 | `code & 0xFF` is the value in `0..256` that differs from the code by a multiple of 256 |
| Ec2.ForInstance | mc-boot/src/main.rs:222 | the filter keeps exactly the entries of the tracked instance, out of those given, and no more entries than it was given |
| Ec2.Reports | mc-boot/src/main.rs:219-225 | the chain `flatten().filter(..).filter_map(state).filter_map(code).any(low byte == target)` over one reply's entries (characterized by `ReportsIff`) |
| Ec2.ReportsIff | mc-boot/src/main.rs:219-225 | the iterator chain holds exactly when some entry has the tracked instance id, a present state and a present code whose low byte is the target. Entries for other ids, or with a missing state or code, are ignored |
| Ec2.PollSpecUnique | mc-boot/src/main.rs:215-228 | the replies decide how a poll ends and where it stops |
| Ec2.Poll | mc-boot/src/main.rs:215-228 | a poll either reaches its target at the first reply that reports it, with every earlier reply a successful non-report; or fails at the first failed call; or runs out of replies without either |
| Ec2.Start | mc-boot/src/main.rs:208-231 | the start poll ends only at a reply reporting code 16 (running) for the instance, or at a failed call |
| Ec2.WaitUntilStopped | mc-boot/src/main.rs:234-260 | the stop poll ends only at a reply reporting code 80 (stopped) for the instance, or at a failed call |
| Presence.Classify | mc-boot/src/main.rs:85-117 | an update is a join exactly when the old state is absent or has no channel and the new one has a channel. It is a leave exactly when the old state has a channel and the new one has none. Anything else is ignored |
| Presence.Step | mc-boot/src/main.rs:85-140 | one pass without the polls: a join or leave updates the saturating counter; if it is positive the flag is set and a start fires when the flag was clear; if it is zero the flag is cleared and a stop fires when the flag was set; any other update changes nothing |
| Presence.Run | mc-boot/src/main.rs:81-141 | the counter, flag and triggers after a sequence of updates, starting at zero and clear, as a fold of `Step` |
| Presence.SaturatingInc | mc-boot/src/main.rs:103 | adds one below `usize::MAX` and stays at the maximum |
| Presence.SaturatingDec | mc-boot/src/main.rs:115 | subtracts one above zero and stays at zero |
| Presence.JoinIncrements | mc-boot/src/main.rs:86-104 | a join raises the counter by exactly one, unless it is at `usize::MAX` |
| Presence.LeaveDecrements | mc-boot/src/main.rs:105-116 | a leave lowers the counter by exactly one; a leave at zero keeps it at zero |
| Presence.OtherIgnored | mc-boot/src/main.rs:117 | every update that is neither a join nor a leave (moving between channels, no channel to no channel, an unknown previous state with no channel) changes neither the counter nor the flag and triggers nothing |
| Presence.StepEstablishes | mc-boot/src/main.rs:120-128 | after any counted transition, `online == (connected > 0)`, whatever they were before |
| Presence.TriggersAtCrossings | mc-boot/src/main.rs:120-140 | start fires exactly when the counter goes from zero to positive; stop fires exactly when it goes from positive to zero |
| Presence.RunAlternates | mc-boot/src/main.rs:81-141 | over any run from the start, the flag agrees with the counter. The triggers alternate start, stop, start, and so on. The flag is set exactly when the last trigger was a start |
| Presence.LeaveAtZeroForgotten | mc-boot/src/main.rs:103-115 | a leave at zero followed by a join leaves the counter at one and fires one start |
| Presence.Resume | mc-boot/src/main.rs:124 | after a poll the loop goes on only if the poll reached its target; a failure or an endless poll ends it |
| Presence.PollsReachedAt | mc-boot/src/main.rs:120-140 | in a chain of completed polls, each one reached its trigger's target, reading the replies the previous poll left |
| Presence.Handle | mc-boot/src/main.rs:85-140 | one pass, written with the two `mem::replace` tests, gives the state and trigger that `Step` prescribes. It polls, from the current reply on, exactly when it triggers, and for that trigger's target state |
| Presence.RunVoice | mc-boot/src/main.rs:81-141 | after the updates it took, the counter, the flag and the triggers are `Run` of those updates. It stops early only on an update that triggered a poll that failed or never finished. Each trigger posts its notice. The polls read the replies in turn, and every completed one reached its target |

## Left out

- Concurrency and plumbing are not modelled, because the model takes events
  as one ordered sequence. This covers the tokio runtime, `tokio::select!`,
  `spawn`, the `mpsc` channels and the `Mutex` around the server's stdin.
- Process I/O is not modelled. This covers spawning the server, its pipes,
  `child.wait()`, the `/stop` write on exit, and src/server.rs.
- Socket I/O is not modelled. This covers the TCP shutdown listener of
  mc-sync, and mc-boot's connect-retry loop before the stop poll
  (mc-boot/src/main.rs:132-135). The model goes straight to the stop poll.
- The Discord clients are outside the model. Connecting, typing indicators
  and deleting the status message are left out. Posting is kept as an output
  sequence: notices, replies, and the verbose and general channels.
- The rusoto client, credentials, region and the 5-second sleep are left
  out. Each poll reads the next reply of an abstract sequence.
- The option parsing (clap) is left out, because it only loads
  configuration. src/main.rs, a stdin echo, and src/event.rs, a bare type,
  are not part of this model.
- A poll that never ends is not modelled as such. The replies are finite, so
  it appears as the `Exhausted` or `Stalled` outcome once they run out.
- The regex engine in general is not modelled. Only the four fixed patterns
  are written out. Their `.` is taken to match every character, which holds
  because server lines never contain a newline.
- Dispatcher.Process: a failed Discord post, write or flush ends the real
  task through `?`. The model treats every such call as successful.
- Presence.RunVoice: a failed Discord `say` or `delete` ends the real task
  through `?`. The model treats those calls as successful; only EC2 failures
  end it.
- LegacyDiscord.Run: a failed write is modelled as writing nothing. A
  partial write of the line is not modelled.
- LegacyDiscord.Run: the registry is shared as `Arc<Mutex<State>>`
  (src/disc.rs:16). `Run` reads it as a fixed value; no writer is modelled.
- Ec2.LowByte: the mask is stated on the integer value, as that value's
  remainder modulo 256. It is not stated on a 64-bit bit-vector.
