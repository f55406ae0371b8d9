/**
 * mc-boot's main task: it counts the members connected to a voice channel of
 * the guild, starts the server's EC2 instance when the first one joins and
 * waits for it to stop when the last one leaves.
 */
module Presence {
  import opened Wrappers
  import Ec2

  const USIZE_MAX: nat := 0xFFFF_FFFF_FFFF_FFFF

  /** Rust's `usize` on a 64-bit target. */
  type Usize = x: nat | x <= USIZE_MAX

  /** A member's voice state; only the channel it is in, if any, matters. */
  datatype VoiceState = VoiceState(channelId: Option<nat>)

  /** `Event::Voice { old, new }`: the member's previous state may be unknown. */
  datatype VoiceUpdate = VoiceUpdate(previous: Option<VoiceState>, current: VoiceState)

  datatype Edge = Join | Leave | Other

  /** The three arms of the `match (old, new)`. */
  function Classify(u: VoiceUpdate): (e: Edge)
    ensures e == Join <==> (u.previous.None? || u.previous.value.channelId.None?) && u.current.channelId.Some?
    ensures e == Leave <==> u.previous.Some? && u.previous.value.channelId.Some? && u.current.channelId.None?
  {
    match (u.previous, u.current)
    case (Some(VoiceState(None)), VoiceState(Some(_))) => Join
    case (None, VoiceState(Some(_))) => Join
    case (Some(VoiceState(Some(_))), VoiceState(None)) => Leave
    case _ => Other
  }

  /** `usize::saturating_add(1)`. */
  function SaturatingInc(c: Usize): (r: Usize)
    ensures c < USIZE_MAX ==> r == c + 1
    ensures c == USIZE_MAX ==> r == c
  {
    if c == USIZE_MAX then c else c + 1
  }

  /** `usize::saturating_sub(1)`. */
  function SaturatingDec(c: Usize): (r: Usize)
    ensures c > 0 ==> r == c - 1
    ensures c == 0 ==> r == 0
  {
    if c == 0 then 0 else c - 1
  }

  /** The loop's two variables. */
  datatype Detector = Detector(connected: Usize, online: bool)

  const Initial: Detector := Detector(0, false)

  datatype Trigger = StartServer | StopServer

  /** The message posted to the general channel while a trigger's poll runs. */
  function Notice(t: Trigger): string {
    match t
    case StartServer => "Server is starting..."
    case StopServer => "Server is stopping..."
  }

  /** The state each trigger's poll waits for. */
  function Target(t: Trigger): Ec2.i64 {
    match t
    case StartServer => Ec2.RUNNING
    case StopServer => Ec2.STOPPED
  }

  /**
   * One pass of the loop body, without the polls: the counter update, then
   * `connected > 0 && !replace(online, true)` and, failing that,
   * `connected == 0 && replace(online, false)`.
   */
  function Step(d: Detector, u: VoiceUpdate): (Detector, Option<Trigger>) {
    match Classify(u)
    case Other => (d, None)
    case edge =>
      var c := if edge == Join then SaturatingInc(d.connected) else SaturatingDec(d.connected);
      if c > 0 then
        (Detector(c, true), if d.online then None else Some(StartServer))
      else
        (Detector(0, false), if d.online then Some(StopServer) else None)
  }

  /** The state and the triggers after the loop has taken `updates`, in order. */
  function Run(updates: seq<VoiceUpdate>): (Detector, seq<Trigger>)
    decreases |updates|
  {
    if updates == [] then (Initial, [])
    else
      var prev := Run(updates[..|updates| - 1]);
      var next := Step(prev.0, updates[|updates| - 1]);
      (next.0, prev.1 + (if next.1.Some? then [next.1.value] else []))
  }

  /** Taking one more update is one more `Step`. */
  lemma RunSnoc(updates: seq<VoiceUpdate>, n: nat)
    requires n < |updates|
    ensures var prev := Run(updates[..n]);
            var next := Step(prev.0, updates[n]);
            Run(updates[..n + 1]) == (next.0, prev.1 + (if next.1.Some? then [next.1.value] else []))
  {
    assert updates[..n + 1][..n] == updates[..n];
  }

  /** `RunSnoc` for a loop that keeps the state and the triggers so far in variables. */
  lemma RunStep(updates: seq<VoiceUpdate>, n: nat, d: Detector, ts: seq<Trigger>, d': Detector, t: Option<Trigger>)
    requires 0 < n <= |updates|
    requires Run(updates[..n - 1]) == (d, ts)
    requires Step(d, updates[n - 1]) == (d', t)
    ensures Run(updates[..n]) == (d', if t.Some? then ts + [t.value] else ts)
  {
    RunSnoc(updates, n - 1);
    assert ts + [] == ts;
  }

  /** The flag says whether anyone is connected. */
  predicate Consistent(d: Detector) {
    d.online == (d.connected > 0)
  }

  /** A join adds exactly one, short of the counter's maximum. */
  lemma JoinIncrements(d: Detector, u: VoiceUpdate)
    requires Classify(u) == Join
    ensures d.connected < USIZE_MAX ==> Step(d, u).0.connected == d.connected + 1
    ensures d.connected == USIZE_MAX ==> Step(d, u).0.connected == USIZE_MAX
  {
  }

  /** A leave takes exactly one away, and a leave at zero stays at zero. */
  lemma LeaveDecrements(d: Detector, u: VoiceUpdate)
    requires Classify(u) == Leave
    ensures d.connected > 0 ==> Step(d, u).0.connected == d.connected - 1
    ensures d.connected == 0 ==> Step(d, u).0.connected == 0
  {
  }

  /**
   * Every update that is neither a join nor a leave (moving between channels,
   * no channel to no channel, or an unknown previous state with no channel)
   * changes nothing and triggers nothing.
   */
  lemma OtherIgnored(d: Detector, u: VoiceUpdate)
    requires Classify(u) == Other
    ensures Step(d, u) == (d, None)
  {
  }

  /** After every counted transition the flag agrees with the counter, whatever it was before. */
  lemma StepEstablishes(d: Detector, u: VoiceUpdate)
    requires Classify(u) != Other
    ensures Consistent(Step(d, u).0)
  {
  }

  /**
   * From a consistent state, the start trigger fires exactly when the count
   * goes from zero to positive, and the stop trigger exactly when it goes from
   * positive to zero.
   */
  lemma TriggersAtCrossings(d: Detector, u: VoiceUpdate)
    requires Consistent(d)
    ensures Step(d, u).1 == Some(StartServer) <==> d.connected == 0 && Step(d, u).0.connected > 0
    ensures Step(d, u).1 == Some(StopServer) <==> d.connected > 0 && Step(d, u).0.connected == 0
  {
  }

  /** The triggers so far start with a start and then take turns. */
  predicate Alternating(ts: seq<Trigger>) {
    forall k :: 0 <= k < |ts| ==> ts[k] == (if k % 2 == 0 then StartServer else StopServer)
  }

  /**
   * Across any run the flag agrees with the counter, the triggers alternate
   * start, stop, start, ..., and the server is up exactly when the last one
   * was a start.
   */
  lemma {:induction false} RunAlternates(updates: seq<VoiceUpdate>)
    ensures Consistent(Run(updates).0)
    ensures Alternating(Run(updates).1)
    ensures Run(updates).0.online <==> |Run(updates).1| % 2 == 1
    decreases |updates|
  {
    if updates != [] {
      var prefix := updates[..|updates| - 1];
      RunAlternates(prefix);
      TriggersAtCrossings(Run(prefix).0, updates[|updates| - 1]);
    }
  }

  /**
   * The counter forgets leaves it could not count: a leave seen at zero
   * followed by a join leaves one member connected, although the joins and
   * the leaves are as many.
   */
  lemma LeaveAtZeroForgotten(channel: nat)
    ensures var leave := VoiceUpdate(Some(VoiceState(Some(channel))), VoiceState(None));
            var join := VoiceUpdate(None, VoiceState(Some(channel)));
            Run([leave, join]) == (Detector(1, true), [StartServer])
  {
    var leave := VoiceUpdate(Some(VoiceState(Some(channel))), VoiceState(None));
    var join := VoiceUpdate(None, VoiceState(Some(channel)));
    var us := [leave, join];
    assert us[..0] == [] && us[..2] == us;
    RunSnoc(us, 0);
    RunSnoc(us, 1);
    assert Classify(leave) == Leave && Classify(join) == Join;
    assert Step(Initial, leave) == (Initial, None);
    assert Run(us[..1]) == (Initial, []);
    assert Step(Initial, join) == (Detector(1, true), Some(StartServer));
    assert [] + [StartServer] == [StartServer];
    assert Run([leave, join]) == (Detector(1, true), [StartServer]);
  }

  /** How the loop ended. */
  datatype VoiceOutcome =
    | Finished   // every update was taken
    | ApiFailed  // a poll's API call failed, which ends the task with an error
    | Stalled    // the replies ran out while a poll waited, standing for a poll that never ends

  /** What the loop does after a poll: go on after `Reached` (the `?` passes), stop otherwise. */
  function Resume(poll: Ec2.PollOutcome): (o: VoiceOutcome)
    ensures PollOf(o) == poll
  {
    match poll
    case Reached => Finished
    case Failed => ApiFailed
    case Exhausted => Stalled
  }

  function PollOf(o: VoiceOutcome): Ec2.PollOutcome {
    match o
    case Finished => Ec2.Reached
    case ApiFailed => Ec2.Failed
    case Stalled => Ec2.Exhausted
  }

  /** Where the `k`-th poll began: the first reply after the previous one ended. */
  function PollStart(ends: seq<nat>, k: nat): nat
    requires k <= |ends|
  {
    if k == 0 then 0 else ends[k - 1]
  }

  /**
   * The polls of `ts`, in turn, each reached its target state, the `k`-th
   * one ending just before reply `ends[k]`.
   */
  ghost predicate PollsReached(api: seq<Ec2.ApiReply>, id: string, ts: seq<Trigger>, ends: seq<nat>)
    decreases |ts|
  {
    && |ts| == |ends|
    && (ts != [] ==>
          var n := |ts| - 1;
          && PollsReached(api, id, ts[..n], ends[..n])
          && Ec2.PollSpec(api, PollStart(ends, n), id, Target(ts[n]), Ec2.Reached, ends[n]))
  }

  /** The chain read poll by poll. */
  lemma {:induction false} PollsReachedAt(api: seq<Ec2.ApiReply>, id: string, ts: seq<Trigger>, ends: seq<nat>, k: nat)
    requires PollsReached(api, id, ts, ends) && k < |ts|
    ensures Ec2.PollSpec(api, PollStart(ends, k), id, Target(ts[k]), Ec2.Reached, ends[k])
    decreases |ts|
  {
    var n := |ts| - 1;
    if k < n {
      PollsReachedAt(api, id, ts[..n], ends[..n], k);
      assert PollStart(ends[..n], k) == PollStart(ends, k);
    }
  }

  /**
   * Each trigger waits for its poll; the polls read the replies in turn, and
   * every poll but possibly the last has reached its target state.
   */
  ghost predicate PollsFollow(api: seq<Ec2.ApiReply>, id: string, triggers: seq<Trigger>,
                              ends: seq<nat>, outcome: VoiceOutcome, used: nat)
  {
    && |ends| == (if outcome == Finished then |triggers| else |triggers| - 1)
    && PollsReached(api, id, triggers[..|ends|], ends)
    && (outcome == Finished ==> used == PollStart(ends, |ends|))
    && (outcome != Finished ==>
          Ec2.PollSpec(api, PollStart(ends, |ends|), id, Target(triggers[|ends|]), PollOf(outcome), used))
  }

  /** A trigger's poll extends the record of the polls so far. */
  lemma PollsFollowExtend(api: seq<Ec2.ApiReply>, id: string, triggers: seq<Trigger>, ends: seq<nat>, used: nat,
                          t: Trigger, outcome: VoiceOutcome, next: nat)
    requires PollsFollow(api, id, triggers, ends, Finished, used)
    requires Ec2.PollSpec(api, used, id, Target(t), PollOf(outcome), next)
    ensures PollsFollow(api, id, triggers + [t], if outcome == Finished then ends + [next] else ends, outcome, next)
  {
    var triggers' := triggers + [t];
    assert triggers[..|ends|] == triggers;
    if outcome == Finished {
      PollsReachedSnoc(api, id, triggers, ends, t, next);
      assert triggers'[..|ends| + 1] == triggers';
    } else {
      assert triggers'[..|ends|] == triggers;
      assert triggers'[|ends|] == t;
    }
  }

  /** One more completed poll, starting where the last one ended, extends the chain. */
  lemma PollsReachedSnoc(api: seq<Ec2.ApiReply>, id: string, ts: seq<Trigger>, ends: seq<nat>, t: Trigger, next: nat)
    requires PollsReached(api, id, ts, ends)
    requires Ec2.PollSpec(api, PollStart(ends, |ends|), id, Target(t), Ec2.Reached, next)
    ensures PollsReached(api, id, ts + [t], ends + [next])
  {
    var ts', ends' := ts + [t], ends + [next];
    var n := |ts|;
    assert ts'[..n] == ts && ends'[..n] == ends;
    assert ts'[n] == t && ends'[n] == next;
    assert PollStart(ends', n) == PollStart(ends, n) by {
      if n > 0 {
        assert ends'[n - 1] == ends[n - 1];
      }
    }
  }

  /**
   * One pass of the loop body: the counter update, the two `mem::replace`
   * tests and, when one fires, its poll, reading the replies from `used` on.
   */
  method Handle(connected: Usize, online: bool, u: VoiceUpdate, api: seq<Ec2.ApiReply>, used: nat, id: string)
    returns (connected': Usize, online': bool, trigger: Option<Trigger>, outcome: VoiceOutcome, next: nat)
    requires used <= |api|
    ensures (Detector(connected', online'), trigger) == Step(Detector(connected, online), u)
    ensures trigger.None? ==> outcome == Finished && next == used
    ensures trigger.Some? ==> Ec2.PollSpec(api, used, id, Target(trigger.value), PollOf(outcome), next)
    ensures next <= |api|
  {
    connected', online', trigger, outcome, next := connected, online, None, Finished, used;
    var edge := Classify(u);
    if edge == Other {
      return;
    }
    if edge == Join {
      connected' := if connected' == USIZE_MAX then connected' else connected' + 1;
    } else {
      connected' := if connected' == 0 then 0 else connected' - 1;
    }
    var starting := false;
    if connected' > 0 {
      starting := !online';
      online' := true;
    }
    if starting {
      trigger := Some(StartServer);
      var poll;
      poll, next := Ec2.Start(api, used, id);
      outcome := Resume(poll);
    } else {
      var stopping := false;
      if connected' == 0 {
        stopping := online';
        online' := false;
      }
      if stopping {
        trigger := Some(StopServer);
        var poll;
        poll, next := Ec2.WaitUntilStopped(api, used, id);
        outcome := Resume(poll);
      }
    }
  }

  /**
   * What holds after the voice loop has taken `handled` updates: the state and
   * triggers are `Run` of them, an early stop came right after a trigger, each
   * trigger posted its notice, and the polls read the replies in turn.
   */
  ghost predicate VoiceInv(updates: seq<VoiceUpdate>, api: seq<Ec2.ApiReply>, id: string, handled: nat,
                           d: Detector, triggers: seq<Trigger>, notices: seq<string>, ends: seq<nat>,
                           outcome: VoiceOutcome, used: nat)
  {
    && handled <= |updates| && used <= |api|
    && Run(updates[..handled]) == (d, triggers)
    && (outcome != Finished ==> 0 < handled && Step(Run(updates[..handled - 1]).0, updates[handled - 1]).1.Some?)
    && |notices| == |triggers| && (forall k :: 0 <= k < |triggers| ==> notices[k] == Notice(triggers[k]))
    && PollsFollow(api, id, triggers, ends, outcome, used)
  }

  /** One pass of the voice loop, as `Handle` describes it, keeps `VoiceInv`. */
  lemma VoiceInvStep(updates: seq<VoiceUpdate>, api: seq<Ec2.ApiReply>, id: string, handled: nat,
                     d: Detector, triggers: seq<Trigger>, notices: seq<string>, ends: seq<nat>, used: nat,
                     d': Detector, trigger: Option<Trigger>, outcome: VoiceOutcome, next: nat)
    requires VoiceInv(updates, api, id, handled, d, triggers, notices, ends, Finished, used)
    requires handled < |updates|
    requires (d', trigger) == Step(d, updates[handled])
    requires trigger.None? ==> outcome == Finished && next == used
    requires trigger.Some? ==> Ec2.PollSpec(api, used, id, Target(trigger.value), PollOf(outcome), next)
    requires next <= |api|
    ensures VoiceInv(updates, api, id, handled + 1, d',
                     if trigger.Some? then triggers + [trigger.value] else triggers,
                     if trigger.Some? then notices + [Notice(trigger.value)] else notices,
                     if trigger.Some? && outcome == Finished then ends + [next] else ends,
                     outcome, next)
  {
    RunStep(updates, handled + 1, d, triggers, d', trigger);
    if trigger.Some? {
      VoiceInvFired(updates, api, id, handled, d, triggers, notices, ends, used, d', trigger.value, outcome, next);
    }
  }

  /** The pass that fires trigger `t` and runs its poll. */
  lemma VoiceInvFired(updates: seq<VoiceUpdate>, api: seq<Ec2.ApiReply>, id: string, handled: nat,
                      d: Detector, triggers: seq<Trigger>, notices: seq<string>, ends: seq<nat>, used: nat,
                      d': Detector, t: Trigger, outcome: VoiceOutcome, next: nat)
    requires VoiceInv(updates, api, id, handled, d, triggers, notices, ends, Finished, used)
    requires handled < |updates|
    requires (d', Some(t)) == Step(d, updates[handled])
    requires Run(updates[..handled + 1]) == (d', triggers + [t])
    requires Ec2.PollSpec(api, used, id, Target(t), PollOf(outcome), next)
    requires next <= |api|
    ensures VoiceInv(updates, api, id, handled + 1, d', triggers + [t], notices + [Notice(t)],
                     if outcome == Finished then ends + [next] else ends, outcome, next)
  {
    PollsFollowExtend(api, id, triggers, ends, used, t, outcome, next);
    var notices' := notices + [Notice(t)];
    assert notices'[|notices|] == Notice(t);
    assert updates[..handled + 1][..handled] == updates[..handled];
  }

  /**
   * The voice loop over a finite stretch of updates, with the EC2 API as the
   * sequence `api` of replies read in order. It stops early when a poll fails
   * or runs out of replies; `handled` updates were taken by then.
   */
  method RunVoice(updates: seq<VoiceUpdate>, api: seq<Ec2.ApiReply>, id: string)
    returns (outcome: VoiceOutcome, connected: Usize, online: bool, triggers: seq<Trigger>,
             notices: seq<string>, handled: nat, used: nat, ghost ends: seq<nat>)
    ensures handled <= |updates| && used <= |api|
    ensures Run(updates[..handled]) == (Detector(connected, online), triggers)
    ensures outcome == Finished ==> handled == |updates|
    ensures outcome != Finished ==> 0 < handled && Step(Run(updates[..handled - 1]).0, updates[handled - 1]).1.Some?
    ensures |notices| == |triggers| && forall k :: 0 <= k < |triggers| ==> notices[k] == Notice(triggers[k])
    ensures PollsFollow(api, id, triggers, ends, outcome, used)
  {
    connected, online := 0, false;
    triggers, notices := [], [];
    outcome, handled, used := Finished, 0, 0;
    ends := [];
    assert updates[..0] == [];
    while handled < |updates| && outcome == Finished
      invariant VoiceInv(updates, api, id, handled, Detector(connected, online), triggers, notices, ends, outcome, used)
      decreases |updates| - handled
    {
      ghost var before := Detector(connected, online);
      var trigger, next;
      connected, online, trigger, outcome, next := Handle(connected, online, updates[handled], api, used, id);
      VoiceInvStep(updates, api, id, handled, before, triggers, notices, ends, used,
                   Detector(connected, online), trigger, outcome, next);
      if trigger.Some? {
        triggers, notices := triggers + [trigger.value], notices + [Notice(trigger.value)];
        ends := if outcome == Finished then ends + [next] else ends;
      }
      used := next;
      handled := handled + 1;
    }
  }
}
