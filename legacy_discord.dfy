/**
 * The Discord side of the first version (`Disc::run` in `src/disc.rs`): an
 * endless loop over received gateway events that answers `!online` from the
 * shared registry and relays every other message into the server console.
 */
module LegacyDiscord {
  import opened Wrappers
  import Text
  import opened Registry
  import opened Bridge

  /** What `recv_event` gives the loop. */
  datatype Received =
    | MessageCreate(author: string, content: string)
    | OtherEvent
    | ReceiveError

  /** What the loop does with one received event. */
  datatype Act =
    | AnswerOnline
    | Say(line: string)

  const NOBODY_ONLINE: string := "Nobody is online."

  /** Only `mc-sync`'s own messages are skipped; the content must be exactly `!online`. */
  function Decide(e: Received): Option<Act> {
    match e
    case MessageCreate(author, content) =>
      if author == "mc-sync" then None
      else if content == ONLINE_COMMAND then Some(AnswerOnline)
      else Some(Say(SayCommand(author, content)))
    case _ => None
  }

  /** The answer to `!online` for `count` players listed as `names`. */
  function LegacyReply(count: nat, names: seq<string>): string {
    if count == 0 then NOBODY_ONLINE else Text.Decimal(count) + " online: " + Text.Join(names, ", ")
  }

  /** `text` answers `!online` for the set `s`, listing its names in some order. */
  ghost predicate IsLegacyReply(text: string, s: set<string>) {
    exists names :: Text.IsListing(names, s) && text == LegacyReply(|s|, names)
  }

  /** The console lines written for `events`, leaving out those whose write fails. */
  function SayLines(events: seq<Received>, failing: set<nat>): seq<string>
    decreases |events|
  {
    if events == [] then []
    else
      var k := |events| - 1;
      var rest := SayLines(events[..k], failing);
      match Decide(events[k])
      case Some(Say(line)) => if k in failing then rest else rest + [line]
      case _ => rest
  }

  /** How many `!online` answers are sent for `events`, leaving out those whose send fails. */
  function AnswerCount(events: seq<Received>, failing: set<nat>): nat
    decreases |events|
  {
    if events == [] then 0
    else
      var k := |events| - 1;
      var rest := AnswerCount(events[..k], failing);
      if Decide(events[k]) == Some(AnswerOnline) && k !in failing then rest + 1 else rest
  }

  /**
   * `Disc::run` over a finite stretch of received events. The I/O for the
   * events whose index is in `failing` fails; its error is dropped and the loop
   * goes on. The registry is only read. `general` holds the answers posted to
   * the general channel, `written` the lines written to the server's stdin.
   */
  method Run(events: seq<Received>, failing: set<nat>, state: State)
    returns (general: seq<string>, written: seq<string>)
    ensures written == SayLines(events, failing)
    ensures |general| == AnswerCount(events, failing)
    ensures forall k :: 0 <= k < |general| ==> IsLegacyReply(general[k], state.online)
  {
    general, written := [], [];
    var i := 0;
    while i < |events|
      invariant 0 <= i <= |events|
      invariant written == SayLines(events[..i], failing)
      invariant |general| == AnswerCount(events[..i], failing)
      invariant forall k :: 0 <= k < |general| ==> IsLegacyReply(general[k], state.online)
    {
      assert events[..i + 1][..i] == events[..i];
      match events[i] {
        case MessageCreate(author, content) =>
          if author != "mc-sync" {
            if content == ONLINE_COMMAND {
              var online := state.Online();
              var names := Text.Enumerate(online);
              var message := if |online| == 0 then NOBODY_ONLINE else Text.Decimal(|online|) + " online: " + Text.Join(names, ", ");
              assert message == LegacyReply(|online|, names);
              if i !in failing {
                general := general + [message];
              }
            } else {
              if i !in failing {
                written := written + [SayCommand(author, content)];
              }
            }
          }
        case OtherEvent =>
        case ReceiveError =>
      }
      i := i + 1;
    }
    assert events[..i] == events;
  }

  /** The explicit "Nobody is online." answer is given exactly when the registry is empty. */
  lemma NobodyIffEmpty(text: string, s: set<string>)
    requires IsLegacyReply(text, s)
    ensures text == NOBODY_ONLINE <==> s == {}
  {
    var names :| Text.IsListing(names, s) && text == LegacyReply(|s|, names);
    if s != {} {
      var d := Text.Decimal(|s|);
      assert text[0] == d[0];
      assert Text.IsDigit(text[0]);
      assert !Text.IsDigit(NOBODY_ONLINE[0]);
    }
  }

  /** A non-empty answer gives the count and lists each online player once. */
  lemma NonEmptyReplyLists(text: string, s: set<string>)
    requires IsLegacyReply(text, s) && s != {}
    ensures exists names ::
      && Text.IsListing(names, s) && |names| == |s|
      && text == Text.Decimal(|names|) + " online: " + Text.Join(names, ", ")
  {
    var names :| Text.IsListing(names, s) && text == LegacyReply(|s|, names);
    Text.ListingLength(names, s);
  }

  /** Unlike mc-sync, a padded `" !online"` is not a question here: it goes to the console. */
  lemma PaddedCommandIsSaid(author: string)
    requires author != "mc-sync"
    ensures Decide(MessageCreate(author, " !online")) == Some(Say("/say [" + author + "]: " + " !online" + "\n"))
  {
    assert |" !online"| != |ONLINE_COMMAND|;
  }
}
