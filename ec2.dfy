/**
 * The two EC2 polls of mc-boot (`Ec2::start` and `Ec2::wait_until_stopped`).
 * The cloud API is a finite sequence of replies, one per call; a poll reads
 * them from a cursor on and stops at the first failed call or at the first
 * reply that reports the tracked instance in the wanted state.
 */
module Ec2 {
  import opened Wrappers

  /** Rust's `i64`. */
  newtype i64 = x: int | -0x8000_0000_0000_0000 <= x < 0x8000_0000_0000_0000

  /** Low bytes of the instance-state codes for "running" and "stopped". */
  const RUNNING: i64 := 16
  const STOPPED: i64 := 80

  /** `InstanceState`: the state code may be missing. */
  datatype InstanceState = InstanceState(code: Option<i64>)

  /**
   * One `InstanceStateChange` of a `start_instances` reply (its
   * `current_state`) or one `InstanceStatus` of a `describe_instance_status`
   * reply (its `instance_state`); both polls read only these two fields.
   */
  datatype Entry = Entry(instanceId: Option<string>, state: Option<InstanceState>)

  /** One API call: an error, or a reply whose list of entries may be missing. */
  datatype ApiReply =
    | Ok(entries: Option<seq<Entry>>)
    | Err

  /**
   * `code & 0b1111_1111`. On a two's-complement `i64` the mask keeps the
   * unique value in `0..256` that differs from `code` by a multiple of 256,
   * which is the Euclidean remainder.
   */
  function LowByte(code: i64): (r: int)
    ensures 0 <= r < 256
    ensures (code as int - r) % 256 == 0
  {
    code as int % 256
  }

  /** `into_iter().flatten()`: a missing list is an empty one. */
  function Listed(entries: Option<seq<Entry>>): seq<Entry> {
    match entries
    case Some(es) => es
    case None => []
  }

  /** `filter(|e| e.instance_id.as_ref() == Some(id))`. */
  function ForInstance(es: seq<Entry>, id: string): (r: seq<Entry>)
    ensures |r| <= |es|
    ensures forall e :: e in r <==> e in es && e.instanceId == Some(id)
  {
    if es == [] then [] else (if es[0].instanceId == Some(id) then [es[0]] else []) + ForInstance(es[1..], id)
  }

  /** `filter_map(|e| e.state)`. */
  function States(es: seq<Entry>): seq<InstanceState> {
    if es == [] then [] else (if es[0].state.Some? then [es[0].state.value] else []) + States(es[1..])
  }

  /** `filter_map(|s| s.code)`. */
  function Codes(ss: seq<InstanceState>): seq<i64> {
    if ss == [] then [] else (if ss[0].code.Some? then [ss[0].code.value] else []) + Codes(ss[1..])
  }

  /** `any(|code| code & 0b1111_1111 == target)`. */
  function AnyLowByte(cs: seq<i64>, target: i64): bool {
    cs != [] && (LowByte(cs[0]) == target as int || AnyLowByte(cs[1..], target))
  }

  /** The whole iterator chain of one poll over one reply's entries. */
  function Reports(es: seq<Entry>, id: string, target: i64): bool {
    AnyLowByte(Codes(States(ForInstance(es, id))), target)
  }

  /** One entry is for `id`, has a state, and its code's low byte is `target`. */
  predicate EntryReports(e: Entry, id: string, target: i64) {
    && e.instanceId == Some(id)
    && e.state.Some?
    && e.state.value.code.Some?
    && LowByte(e.state.value.code.value) == target as int
  }

  lemma ReportsCons(es: seq<Entry>, id: string, target: i64)
    requires es != []
    ensures Reports(es, id, target) == (EntryReports(es[0], id, target) || Reports(es[1..], id, target))
  {
    var rest := ForInstance(es[1..], id);
    if EntryReports(es[0], id, target) {
      var e := es[0];
      assert ForInstance(es, id) == [e] + rest;
      assert States([e] + rest) == [e.state.value] + States(rest) by {
        assert ([e] + rest)[1..] == rest;
      }
      assert Codes([e.state.value] + States(rest)) == [e.state.value.code.value] + Codes(States(rest)) by {
        assert ([e.state.value] + States(rest))[1..] == States(rest);
      }
    } else if es[0].instanceId == Some(id) {
      var e := es[0];
      assert ForInstance(es, id) == [e] + rest;
      if e.state.None? {
        assert States([e] + rest) == States(rest) by {
          assert ([e] + rest)[1..] == rest;
        }
      } else {
        assert States([e] + rest) == [e.state.value] + States(rest) by {
          assert ([e] + rest)[1..] == rest;
        }
        assert e.state.value.code.Some? ==> LowByte(e.state.value.code.value) != target as int;
        var cs := Codes(States(rest));
        if e.state.value.code.None? {
          assert Codes([e.state.value] + States(rest)) == cs by {
            assert ([e.state.value] + States(rest))[1..] == States(rest);
          }
        } else {
          var c := e.state.value.code.value;
          assert Codes([e.state.value] + States(rest)) == [c] + cs by {
            assert ([e.state.value] + States(rest))[1..] == States(rest);
          }
          assert ([c] + cs)[1..] == cs;
        }
      }
    } else {
      assert ForInstance(es, id) == rest;
    }
  }

  /** The chain holds exactly when some entry of the reply reports the wanted state. */
  lemma {:induction false} ReportsIff(es: seq<Entry>, id: string, target: i64)
    ensures Reports(es, id, target) <==> exists i :: 0 <= i < |es| && EntryReports(es[i], id, target)
    decreases |es|
  {
    if es == [] {
    } else {
      ReportsCons(es, id, target);
      ReportsIff(es[1..], id, target);
      if Reports(es[1..], id, target) {
        var i :| 0 <= i < |es[1..]| && EntryReports(es[1..][i], id, target);
        assert EntryReports(es[i + 1], id, target);
      }
      forall i | 0 < i < |es| && EntryReports(es[i], id, target)
        ensures Reports(es[1..], id, target)
      {
        assert es[1..][i - 1] == es[i];
      }
    }
  }

  /** The replies `api[from..to]` all came back and none reports `target` for `id`. */
  ghost predicate Pending(api: seq<ApiReply>, from: nat, to: nat, id: string, target: i64) {
    && from <= to <= |api|
    && forall k :: from <= k < to ==> api[k].Ok? && !Reports(Listed(api[k].entries), id, target)
  }

  /** How a poll ends: the state was reached, a call failed, or the replies ran out. */
  datatype PollOutcome = Reached | Failed | Exhausted

  /**
   * What a poll that starts at reply `from` does: it ends with `outcome`
   * having consumed the replies up to (not including) `next`.
   */
  ghost predicate PollSpec(api: seq<ApiReply>, from: nat, id: string, target: i64, outcome: PollOutcome, next: nat) {
    match outcome
    case Reached =>
      && from < next <= |api|
      && Pending(api, from, next - 1, id, target)
      && api[next - 1].Ok?
      && Reports(Listed(api[next - 1].entries), id, target)
    case Failed =>
      && from < next <= |api|
      && Pending(api, from, next - 1, id, target)
      && api[next - 1].Err?
    case Exhausted =>
      && from <= next == |api|
      && Pending(api, from, next, id, target)
  }

  /** A poll's end is fixed by the replies: at most one outcome fits. */
  lemma PollSpecUnique(api: seq<ApiReply>, from: nat, id: string, target: i64,
                       o1: PollOutcome, n1: nat, o2: PollOutcome, n2: nat)
    requires PollSpec(api, from, id, target, o1, n1)
    requires PollSpec(api, from, id, target, o2, n2)
    ensures o1 == o2 && n1 == n2
  {
    var last1 := if o1 == Exhausted then n1 else n1 - 1;
    var last2 := if o2 == Exhausted then n2 else n2 - 1;
    assert last1 < |api| ==> !(api[last1].Ok? && !Reports(Listed(api[last1].entries), id, target));
    assert last2 < |api| ==> !(api[last2].Ok? && !Reports(Listed(api[last2].entries), id, target));
    assert last1 == last2;
  }

  /** The `while !... .any(...) { sleep }` loop shared by both polls. */
  method Poll(api: seq<ApiReply>, from: nat, id: string, target: i64) returns (outcome: PollOutcome, next: nat)
    requires from <= |api|
    ensures PollSpec(api, from, id, target, outcome, next)
  {
    next := from;
    while next < |api|
      invariant Pending(api, from, next, id, target)
      decreases |api| - next
    {
      var reply := api[next];
      next := next + 1;
      match reply {
        case Err =>
          return Failed, next;
        case Ok(entries) =>
          if Reports(Listed(entries), id, target) {
            return Reached, next;
          }
      }
    }
    outcome := Exhausted;
  }

  /** `Ec2::start`: ask to start the instance until a reply says it runs. */
  method Start(api: seq<ApiReply>, from: nat, id: string) returns (outcome: PollOutcome, next: nat)
    requires from <= |api|
    ensures PollSpec(api, from, id, RUNNING, outcome, next)
  {
    outcome, next := Poll(api, from, id, RUNNING);
  }

  /** `Ec2::wait_until_stopped`: ask for the status until a reply says it stopped. */
  method WaitUntilStopped(api: seq<ApiReply>, from: nat, id: string) returns (outcome: PollOutcome, next: nat)
    requires from <= |api|
    ensures PollSpec(api, from, id, STOPPED, outcome, next)
  {
    outcome, next := Poll(api, from, id, STOPPED);
  }
}
