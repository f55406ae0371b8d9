/**
 * The four server-log patterns of mc-sync (JOIN, QUIT, ACHIEVEMENT, MESSAGE),
 * each hand-coded as a matcher that returns the regex's captures, and the
 * first-match classification of a log line into a LogEvent.
 *
 * Every pattern reads `.*\[Server thread/INFO\]: ` followed by its own text.
 * The leading greedy `.*` makes the matcher pick the LAST occurrence of the
 * INFO prefix after which the rest of the pattern fits, and each greedy group
 * then takes the longest text that still lets the rest fit. The `*Site`
 * functions state this choice in their contracts. Lines come from reading the
 * server's output line by line, so they hold no '\n' and `.` matches any of
 * their characters.
 */
module LogPatterns {
  import opened Wrappers
  import Text
  import opened Search

  const PREFIX: string := "[Server thread/INFO]: "
  const LOGGED_IN: string := " logged in with entity id "
  const AT: string := " at "
  const LEFT_GAME: string := " left the game"
  const ADVANCEMENT: string := " has made the advancement ["
  const CHAT_CLOSE: string := "> "

  /** The INFO prefix occurs in `line` at position `i`. */
  predicate PrefixAt(line: string, i: nat) {
    i + |PREFIX| <= |line| && line[i..i + |PREFIX|] == PREFIX
  }

  predicate OccursAt(s: string, w: string, q: int) {
    0 <= q && q + |w| <= |s| && s[q..q + |w|] == w
  }

  predicate Contains(s: string, w: string) {
    exists q | 0 <= q <= |s| - |w| :: OccursAt(s, w, q)
  }

  /** `\[[^\]]*\] logged in with entity id .* at .*` matches at the start of `t`. */
  predicate JoinTail(t: string) {
    && |t| > 0
    && t[0] == '['
    && exists m | 1 <= m < |t| ::
         && t[m] == ']'
         && (forall q | 1 <= q < m :: t[q] != ']')
         && Text.StartsWith(t[m + 1..], LOGGED_IN)
         && Contains(t[m + 1 + |LOGGED_IN|..], AT)
  }

  // In the predicates below `i` is where the INFO prefix starts, `k` the length
  // of the first capture and `j` the length of the second.

  /** JOIN: `.*\[Server thread/INFO\]: (.*)\[[^\]]*\] logged in with entity id .* at .*` */
  predicate JoinAt(line: string, i: nat, k: nat) {
    PrefixAt(line, i) && i + |PREFIX| + k <= |line| && JoinTail(line[i + |PREFIX| + k..])
  }

  /** QUIT: `.*\[Server thread/INFO\]: (.*) left the game` */
  predicate QuitAt(line: string, i: nat, k: nat) {
    PrefixAt(line, i) && i + |PREFIX| + k <= |line| && Text.StartsWith(line[i + |PREFIX| + k..], LEFT_GAME)
  }

  /** ACHIEVEMENT: `.*\[Server thread/INFO\]: (.*) has made the advancement \[(.*)\]` */
  predicate AchievementAt(line: string, i: nat, k: nat, j: nat) {
    && PrefixAt(line, i)
    && i + |PREFIX| + k + |ADVANCEMENT| + j < |line|
    && line[i + |PREFIX| + k..i + |PREFIX| + k + |ADVANCEMENT|] == ADVANCEMENT
    && line[i + |PREFIX| + k + |ADVANCEMENT| + j] == ']'
  }

  /** No character of a chat sender's name is a space or `]`. */
  predicate ChatName(s: string) {
    forall q :: 0 <= q < |s| ==> s[q] != ' ' && s[q] != ']'
  }

  /** MESSAGE: `.*\[Server thread/INFO\]: <([^ \]]*)> (.*)` */
  predicate MessageAt(line: string, i: nat, k: nat) {
    && PrefixAt(line, i)
    && i + |PREFIX| + 1 + k + |CHAT_CLOSE| <= |line|
    && line[i + |PREFIX|] == '<'
    && ChatName(line[i + |PREFIX| + 1..i + |PREFIX| + 1 + k])
    && line[i + |PREFIX| + 1 + k..i + |PREFIX| + 1 + k + |CHAT_CLOSE|] == CHAT_CLOSE
  }

  /** Where JOIN matches: the latest prefix, then the longest name. */
  function JoinSite(line: string): (r: Option<(nat, nat)>)
    ensures r.Some? ==> JoinAt(line, r.value.0, r.value.1)
    ensures r.Some? ==> forall i: nat, k: nat :: JoinAt(line, i, k) ==> NoLater2(i, k, r.value.0, r.value.1)
    ensures r.None? ==> forall i: nat, k: nat :: !JoinAt(line, i, k)
  {
    var at := (i: nat, k: nat) => JoinAt(line, i, k);
    assert forall i: nat, k: nat :: JoinAt(line, i, k) ==> i <= |line| && k <= |line| && at(i, k);
    Best2(|line|, at)
  }

  /** Where QUIT matches: the latest prefix, then the longest name. */
  function QuitSite(line: string): (r: Option<(nat, nat)>)
    ensures r.Some? ==> QuitAt(line, r.value.0, r.value.1)
    ensures r.Some? ==> forall i: nat, k: nat :: QuitAt(line, i, k) ==> NoLater2(i, k, r.value.0, r.value.1)
    ensures r.None? ==> forall i: nat, k: nat :: !QuitAt(line, i, k)
  {
    var at := (i: nat, k: nat) => QuitAt(line, i, k);
    assert forall i: nat, k: nat :: QuitAt(line, i, k) ==> i <= |line| && k <= |line| && at(i, k);
    Best2(|line|, at)
  }

  /** Where ACHIEVEMENT matches: the latest prefix, then the longest name, then the longest title. */
  function AchievementSite(line: string): (r: Option<(nat, nat, nat)>)
    ensures r.Some? ==> AchievementAt(line, r.value.0, r.value.1, r.value.2)
    ensures r.Some? ==> forall i: nat, k: nat, j: nat :: AchievementAt(line, i, k, j) ==>
      NoLater3(i, k, j, r.value.0, r.value.1, r.value.2)
    ensures r.None? ==> forall i: nat, k: nat, j: nat :: !AchievementAt(line, i, k, j)
  {
    var at := (i: nat, k: nat, j: nat) => AchievementAt(line, i, k, j);
    assert forall i: nat, k: nat, j: nat :: AchievementAt(line, i, k, j) ==>
      i <= |line| && k <= |line| && j <= |line| && at(i, k, j);
    Best3(|line|, at)
  }

  /** Where MESSAGE matches: the latest prefix, then the longest sender name. */
  function MessageSite(line: string): (r: Option<(nat, nat)>)
    ensures r.Some? ==> MessageAt(line, r.value.0, r.value.1)
    ensures r.Some? ==> forall i: nat, k: nat :: MessageAt(line, i, k) ==> NoLater2(i, k, r.value.0, r.value.1)
    ensures r.None? ==> forall i: nat, k: nat :: !MessageAt(line, i, k)
  {
    var at := (i: nat, k: nat) => MessageAt(line, i, k);
    assert forall i: nat, k: nat :: MessageAt(line, i, k) ==> i <= |line| && k <= |line| && at(i, k);
    Best2(|line|, at)
  }

  /** `JOIN.captures(line)`, giving capture 1. */
  function MatchJoin(line: string): Option<string> {
    match JoinSite(line)
    case None => None
    case Some((i, k)) => Some(line[i + |PREFIX|..i + |PREFIX| + k])
  }

  /** `QUIT.captures(line)`, giving capture 1. */
  function MatchQuit(line: string): Option<string> {
    match QuitSite(line)
    case None => None
    case Some((i, k)) => Some(line[i + |PREFIX|..i + |PREFIX| + k])
  }

  /** `ACHIEVEMENT.captures(line)`, giving captures 1 and 2. */
  function MatchAchievement(line: string): Option<(string, string)> {
    match AchievementSite(line)
    case None => None
    case Some((i, k, j)) =>
      var c := i + |PREFIX| + k + |ADVANCEMENT|;
      Some((line[i + |PREFIX|..i + |PREFIX| + k], line[c..c + j]))
  }

  /** `MESSAGE.captures(line)`, giving captures 1 and 2. */
  function MatchMessage(line: string): Option<(string, string)> {
    match MessageSite(line)
    case None => None
    case Some((i, k)) =>
      var b := i + |PREFIX| + 1;
      Some((line[b..b + k], line[b + k + |CHAT_CLOSE|..]))
  }

  /** Cutting a line at a JOIN site. */
  lemma JoinAtSplits(line: string, i: nat, k: nat)
    requires JoinAt(line, i, k)
    ensures line == line[..i] + PREFIX + line[i + |PREFIX|..i + |PREFIX| + k] + line[i + |PREFIX| + k..]
  {
    var b := i + |PREFIX|;
    assert line == line[..i] + line[i..b] + line[b..b + k] + line[b + k..];
  }

  /** Cutting a line at a QUIT site. */
  lemma QuitAtSplits(line: string, i: nat, k: nat)
    requires QuitAt(line, i, k)
    ensures var b := i + |PREFIX|;
      line == line[..i] + PREFIX + line[b..b + k] + LEFT_GAME + line[b + k + |LEFT_GAME|..]
  {
    var b := i + |PREFIX|;
    var e := b + k + |LEFT_GAME|;
    assert line[b + k..e] == line[b + k..][..|LEFT_GAME|];
    assert line == line[..i] + line[i..b] + line[b..b + k] + line[b + k..e] + line[e..];
  }

  /** Cutting a line at an ACHIEVEMENT site. */
  lemma AchievementAtSplits(line: string, i: nat, k: nat, j: nat)
    requires AchievementAt(line, i, k, j)
    ensures var b := i + |PREFIX|;
      var c := b + k + |ADVANCEMENT|;
      line == line[..i] + PREFIX + line[b..b + k] + ADVANCEMENT + line[c..c + j] + "]" + line[c + j + 1..]
  {
    var b := i + |PREFIX|;
    var c := b + k + |ADVANCEMENT|;
    assert line[c + j..c + j + 1] == "]";
    assert line == line[..i] + line[i..b] + line[b..b + k] + line[b + k..c] + line[c..c + j]
      + line[c + j..c + j + 1] + line[c + j + 1..];
  }

  /** Cutting a line at a MESSAGE site. */
  lemma MessageAtSplits(line: string, i: nat, k: nat)
    requires MessageAt(line, i, k)
    ensures var b := i + |PREFIX| + 1;
      line == line[..i] + PREFIX + "<" + line[b..b + k] + CHAT_CLOSE + line[b + k + |CHAT_CLOSE|..]
  {
    var b := i + |PREFIX| + 1;
    assert line[b - 1..b] == "<";
    assert line == line[..i] + line[i..b - 1] + line[b - 1..b] + line[b..b + k]
      + line[b + k..b + k + |CHAT_CLOSE|] + line[b + k + |CHAT_CLOSE|..];
  }

  /** A JOIN capture is the text after the INFO prefix and before the `[...] logged in ...` tail. */
  lemma MatchJoinShape(line: string, name: string)
    requires MatchJoin(line) == Some(name)
    ensures exists pre, tail :: line == pre + PREFIX + name + tail && JoinTail(tail)
  {
    var (i, k) := JoinSite(line).value;
    JoinAtSplits(line, i, k);
    var tail := line[i + |PREFIX| + k..];
    assert JoinTail(tail);
  }

  /** A QUIT capture is the text between the INFO prefix and " left the game". */
  lemma MatchQuitShape(line: string, name: string)
    requires MatchQuit(line) == Some(name)
    ensures exists pre, rest :: line == pre + PREFIX + name + LEFT_GAME + rest
  {
    var (i, k) := QuitSite(line).value;
    QuitAtSplits(line, i, k);
  }

  /** An ACHIEVEMENT capture pair is the name before the advancement text and the title inside its brackets. */
  lemma MatchAchievementShape(line: string, name: string, title: string)
    requires MatchAchievement(line) == Some((name, title))
    ensures exists pre, rest :: line == pre + PREFIX + name + ADVANCEMENT + title + "]" + rest
  {
    var (i, k, j) := AchievementSite(line).value;
    AchievementAtSplits(line, i, k, j);
  }

  /** A MESSAGE capture pair is the sender inside `<...>` and the rest of the line. */
  lemma MatchMessageShape(line: string, name: string, text: string)
    requires MatchMessage(line) == Some((name, text))
    ensures ChatName(name)
    ensures exists pre :: line == pre + PREFIX + "<" + name + CHAT_CLOSE + text
  {
    var (i, k) := MessageSite(line).value;
    MessageAtSplits(line, i, k);
  }

  /** A classified server log line (the variants mc-sync reacts to). */
  datatype LogEvent =
    | Joined(name: string)
    | Left(name: string)
    | Advanced(name: string, title: string)
    | Chatted(name: string, text: string)

  /** Tries JOIN, QUIT, ACHIEVEMENT and MESSAGE in turn; the first that matches decides. */
  function Parse(line: string): Option<LogEvent> {
    match MatchJoin(line)
    case Some(n) => Some(Joined(n))
    case None =>
      match MatchQuit(line)
      case Some(n) => Some(Left(n))
      case None =>
        match MatchAchievement(line)
        case Some((n, t)) => Some(Advanced(n, t))
        case None =>
          match MatchMessage(line)
          case Some((n, t)) => Some(Chatted(n, t))
          case None => None
  }

  /** The sentence posted to the general channel for a classified line. */
  function Describe(e: LogEvent): string {
    match e
    case Joined(n) => n + " joined the server!"
    case Left(n) => n + " left the server."
    case Advanced(n, t) => n + " unlocked achievement [" + t + "]!"
    case Chatted(n, t) => "[" + n + "]: " + t
  }

  /** The classification is first-match in the order JOIN, QUIT, ACHIEVEMENT, MESSAGE. */
  lemma ParsePriority(line: string)
    ensures Parse(line).None? <==>
      MatchJoin(line).None? && MatchQuit(line).None? && MatchAchievement(line).None? && MatchMessage(line).None?
    ensures Parse(line).Some? && Parse(line).value.Joined? <==> MatchJoin(line).Some?
    ensures Parse(line).Some? && Parse(line).value.Left? <==> MatchJoin(line).None? && MatchQuit(line).Some?
    ensures Parse(line).Some? && Parse(line).value.Advanced? <==>
      MatchJoin(line).None? && MatchQuit(line).None? && MatchAchievement(line).Some?
    ensures Parse(line).Some? && Parse(line).value.Chatted? <==>
      MatchJoin(line).None? && MatchQuit(line).None? && MatchAchievement(line).None? && MatchMessage(line).Some?
  {
  }
}
