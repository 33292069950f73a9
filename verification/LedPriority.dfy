/** led_priority.c: one active pattern, chosen by priority. Patterns and priorities are
    C enums, so any integer can arrive; a smaller priority value is stronger. */
module LedPriority {
  const NONE := 0
  const FATAL := 1
  const LONG_PRESS_HOLD := 2
  const JOINING := 3
  const JOIN_SUCCESS := 4
  const JOIN_FAIL := 5
  const ERASE_CONFIRM := 6
  const BUTTON_ACK := 7
  const HEARTBEAT := 8
  const COUNT := 9

  datatype Arbiter = Arbiter(active: int, prio: int)

  const IDLE: Arbiter := Arbiter(NONE, 0)

  predicate Dispatchable(pattern: int) { NONE < pattern < COUNT }

  function Request(s: Arbiter, pattern: int, prio: int): Arbiter {
    if !Dispatchable(pattern) then s
    else if s.active == NONE || prio < s.prio then Arbiter(pattern, prio)
    else s
  }

  function Cancel(s: Arbiter, pattern: int): Arbiter {
    if s.active == pattern then IDLE else s
  }

  datatype Op = Ask(pattern: int, prio: int) | Drop(pattern: int)

  function Apply(s: Arbiter, op: Op): Arbiter {
    match op
    case Ask(p, prio) => Request(s, p, prio)
    case Drop(p) => Cancel(s, p)
  }

  function Run(s: Arbiter, ops: seq<Op>): Arbiter {
    if ops == [] then s else Apply(Run(s, ops[..|ops| - 1]), ops[|ops| - 1])
  }

  // ----- the arbiter as a statement about the operations alone -----

  /** h[i] has the strongest priority in h, and nothing before it is as strong. */
  predicate FirstStrongest(h: seq<Op>, i: nat) {
    && i < |h| && h[i].Ask?
    && (forall j | 0 <= j < |h| :: h[j].Ask? && h[i].prio <= h[j].prio)
    && (forall j | 0 <= j < i :: h[i].prio < h[j].prio)
  }

  lemma FirstStrongestIsUnique(h: seq<Op>, i: nat, j: nat)
    requires FirstStrongest(h, i) && FirstStrongest(h, j)
    ensures i == j
  {
  }

  /** The pattern of the first strongest request. */
  predicate Leads(h: seq<Op>, pattern: int) {
    exists i | 0 <= i < |h| :: FirstStrongest(h, i) && h[i].pattern == pattern
  }

  /** The requests that matter: those of a pattern from 1 to 8, since the last time the leading
      pattern itself was cancelled. No other cancel makes a difference. */
  function Standing(ops: seq<Op>): seq<Op> {
    if ops == [] then []
    else
      var h, last := Standing(ops[..|ops| - 1]), ops[|ops| - 1];
      if last.Drop? then (if Leads(h, last.pattern) then [] else h)
      else if 1 <= last.pattern <= 8 then h + [last]
      else h
  }

  /** Over any sequence of requests and cancels, with any patterns and priorities: the arbiter
      is idle if and only if no request stands, and otherwise shows the first of strongest
      priority among those that do. */
  lemma {:induction false} ArbiterRefinesHistory(ops: seq<Op>) returns (i: nat)
    ensures Run(IDLE, ops) == IDLE <==> Standing(ops) == []
    ensures var h := Standing(ops);
            h != [] ==> FirstStrongest(h, i) && Run(IDLE, ops) == Arbiter(h[i].pattern, h[i].prio)
    ensures forall k | 0 <= k < |Standing(ops)| :: Standing(ops)[k].Ask? && 1 <= Standing(ops)[k].pattern <= 8
    decreases |ops|
  {
    i := 0;
    if ops != [] {
      var n := |ops| - 1;
      i := ArbiterRefinesHistory(ops[..n]);
      var h := Standing(ops[..n]);
      if ops[n].Drop? {
        if h != [] {
          forall j | 0 <= j < |h| && FirstStrongest(h, j)
            ensures j == i
          {
            FirstStrongestIsUnique(h, i, j);
          }
        }
      } else if 1 <= ops[n].pattern <= 8 && (h == [] || ops[n].prio < h[i].prio) {
        i := |h|;
      }
    }
  }

  class PriorityState {
    var active: int
    var activePrio: int

    function State(): Arbiter
      reads this
    {
      Arbiter(active, activePrio)
    }

    constructor ()
      ensures State() == IDLE
    {
      active, activePrio := NONE, 0;
    }

    /** The result tells whether the requested pattern is the active one afterwards. */
    method RequestPattern(pattern: int, prio: int) returns (r: bool)
      modifies this
      ensures State() == Request(old(State()), pattern, prio)
      ensures r <==> Dispatchable(pattern) && State().active == pattern
    {
      if pattern <= NONE || pattern >= COUNT {
        return false;
      }
      if active == NONE || prio < activePrio {
        active := pattern;
        activePrio := prio;
        return true;
      }
      if pattern == active {
        return true;
      }
      return false;
    }

    method CancelPattern(pattern: int)
      modifies this
      ensures State() == Cancel(old(State()), pattern)
    {
      if active == pattern {
        active := NONE;
        activePrio := 0;
      }
    }
  }
}
