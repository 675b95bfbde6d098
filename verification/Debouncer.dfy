/** The debouncer of network changes (crates/adb-mdns/src/netwatch.rs:51-98): signals come at rising
    times into a queue, and the callback is called once for each burst of them. Times are in
    nanoseconds; the thread itself takes none, the callback may. */
module Debouncer {
  import opened Wrappers

  const CUTOFF: nat := 3_000_000_000
  const MAX_DELAY: nat := 6_000_000_000

  /** What the environment decides: when the senders go away, whether what comes at the very end of a
      wait, a signal or their going, is still seen, and how long the callbacks take, one after the other.
      No two waits end at one time with something still to come then, so its time stands for the wait. */
  datatype Env = Env(close: Option<nat>, seen: set<nat>, lasts: seq<nat>)

  /** One call of the callback: when the timer was armed, when it fired, and the signals it answers. */
  datatype Round = Round(armed: nat, fired: nat, heard: seq<nat>)

  function Max(a: nat, b: nat): nat {
    if a < b then b else a
  }

  ghost predicate Rising(q: seq<nat>) {
    forall i, j :: 0 <= i < j < |q| ==> q[i] <= q[j]
  }

  /** What comes at `a` is there before a wait from `now` ends. */
  predicate Comes(now: nat, a: nat, seen: set<nat>) {
    a < now + CUTOFF || (a == now + CUTOFF && a in seen)
  }

  // ---------- the waits of one round ----------

  /** The inner loop: the end of a round, or of the thread. */
  datatype Waited = Fired(at: nat, heard: seq<nat>, rest: seq<nat>) | Gone(heard: seq<nat>)

  function Heard(a: nat, w: Waited): Waited {
    match w
    case Fired(at, heard, rest) => Fired(at, [a] + heard, rest)
    case Gone(heard) => Gone([a] + heard)
  }

  function Waits(start: nat, now: nat, q: seq<nat>, env: Env): Waited
    requires start <= now
    decreases |q|
  {
    if q != [] && Comes(now, q[0], env.seen) then
      var t := Max(now, q[0]);
      Heard(q[0], if t - start < MAX_DELAY then Waits(start, t, q[1..], env) else Fired(t, [], q[1..]))
    else if q == [] && env.close.Some? && Comes(now, env.close.value, env.seen) then Gone([])
    else Fired(now + CUTOFF, [], q)
  }

  /** A round takes its signals off the front of the queue. */
  lemma {:induction false} WaitsConserve(start: nat, now: nat, q: seq<nat>, env: Env)
    requires start <= now
    ensures Took(q, Waits(start, now, q, env))
    decreases |q|
  {
    hide Comes, Took;
    if q != [] && Comes(now, q[0], env.seen) {
      var t := Max(now, q[0]);
      if t - start < MAX_DELAY {
        WaitsConserve(start, t, q[1..], env);
        TookFirst(q, Waits(start, t, q[1..], env));
      } else {
        TookNone(q[1..], t);
        TookFirst(q, Fired(t, [], q[1..]));
      }
    } else {
      TookNone(q, now + CUTOFF);
    }
  }

  /** The signals heard and those left are the queue. */
  ghost predicate Took(q: seq<nat>, w: Waited) {
    q == w.heard + (if w.Gone? then [] else w.rest)
  }

  lemma TookNone(q: seq<nat>, at: nat)
    ensures Took(q, Fired(at, [], q)) && (q == [] ==> Took(q, Gone([])))
  {}

  lemma TookFirst(q: seq<nat>, w: Waited)
    requires q != [] && Took(q[1..], w)
    ensures Took(q, Heard(q[0], w))
  {
    assert q == [q[0]] + q[1..];
    ConcatAssoc([q[0]], w.heard, if w.Fired? then w.rest else []);
  }

  /** The signals a round answers came before it ended. */
  lemma {:induction false} WaitsAnswer(start: nat, now: nat, q: seq<nat>, env: Env)
    requires start <= now && (now == start || now < start + MAX_DELAY)
    ensures var w := Waits(start, now, q, env); w.Fired? ==> forall a :: a in w.heard ==> a <= w.at
    decreases |q|
  {
    if q != [] && Comes(now, q[0], env.seen) {
      var t := Max(now, q[0]);
      if t - start < MAX_DELAY {
        WaitsAnswer(start, t, q[1..], env);
        WaitsWindow(start, t, q[1..], env);
      }
    }
  }

  /** A round ends after a quiet time, or at a signal when it has gone on for the maximum: within the two together. */
  lemma {:induction false} WaitsWindow(start: nat, now: nat, q: seq<nat>, env: Env)
    requires start <= now && (now == start || now < start + MAX_DELAY)
    ensures var w := Waits(start, now, q, env);
            w.Fired? ==> now <= w.at && start + CUTOFF <= w.at < start + MAX_DELAY + CUTOFF
    decreases |q|
  {
    if q != [] && Comes(now, q[0], env.seen) {
      if Max(now, q[0]) - start < MAX_DELAY {
        WaitsWindow(start, Max(now, q[0]), q[1..], env);
      }
    }
  }

  /** Why a round ended: a quiet time after its last signal, or a signal after the maximum. */
  ghost predicate Reason(armed: nat, last: nat, fired: nat) {
    fired == last + CUTOFF || (fired == last && last >= armed + MAX_DELAY)
  }

  /** When the last of some signals was received, the first of them not before `now`. */
  function LastReceived(now: nat, heard: seq<nat>): (t: nat)
    ensures t >= now
    decreases |heard|
  {
    if heard == [] then now else LastReceived(Max(now, heard[0]), heard[1..])
  }

  lemma {:induction false} WaitsReason(start: nat, now: nat, q: seq<nat>, env: Env)
    requires start <= now
    ensures var w := Waits(start, now, q, env); w.Fired? ==> Reason(start, LastReceived(now, w.heard), w.at)
    decreases |q|
  {
    if q != [] && Comes(now, q[0], env.seen) {
      var t := Max(now, q[0]);
      if t - start < MAX_DELAY {
        WaitsReason(start, t, q[1..], env);
      }
      var w := if t - start < MAX_DELAY then Waits(start, t, q[1..], env) else Fired(t, [], q[1..]);
      assert ([q[0]] + w.heard)[1..] == w.heard;
    }
  }

  // ---------- all rounds ----------

  function Lasts(env: Env): nat {
    if env.lasts == [] then 0 else env.lasts[0]
  }

  function Later(env: Env): Env {
    env.(lasts := if env.lasts == [] then [] else env.lasts[1..])
  }

  /** The outer loop, from `now` on. The callback of a round may last; the next timer is armed after it. */
  function Rounds(now: nat, q: seq<nat>, env: Env): seq<Round>
    decreases |q|
  {
    if q == [] then []
    else
      var start := Max(now, q[0]);
      WaitsConserve(start, start, q[1..], env);
      match Waits(start, start, q[1..], env)
      case Gone(_) => []
      case Fired(at, heard, rest) =>
        [Round(start, at, [q[0]] + heard)] + Rounds(at + Lasts(env), rest, Later(env))
  }

  function Answered(rs: seq<Round>): seq<nat> {
    if rs == [] then [] else rs[0].heard + Answered(rs[1..])
  }

  /** A round of its own: fired within nine seconds of being armed, and not before three. */
  ghost predicate Timely(r: Round) {
    && r.heard != [] && r.armed + CUTOFF <= r.fired < r.armed + MAX_DELAY + CUTOFF
    && Reason(r.armed, LastReceived(r.armed, r.heard), r.fired)
    && forall a :: a in r.heard ==> a <= r.fired
  }

  /** Callbacks are three seconds apart or more, each timer armed after the one before has fired. */
  ghost predicate Spaced(rs: seq<Round>) {
    forall i :: 0 < i < |rs| ==> rs[i - 1].fired <= rs[i].armed && rs[i - 1].fired + CUTOFF <= rs[i].fired
  }

  lemma RoundTimely(now: nat, q: seq<nat>, env: Env)
    requires q != []
    ensures var start := Max(now, q[0]);
            var w := Waits(start, start, q[1..], env);
            w.Fired? ==> Timely(Round(start, w.at, [q[0]] + w.heard))
  {
    var start := Max(now, q[0]);
    var w := Waits(start, start, q[1..], env);
    WaitsWindow(start, start, q[1..], env);
    WaitsAnswer(start, start, q[1..], env);
    WaitsReason(start, start, q[1..], env);
    assert ([q[0]] + w.heard)[1..] == w.heard;
  }

  lemma RoundsStep(now: nat, q: seq<nat>, env: Env)
    requires q != []
    ensures var start := Max(now, q[0]);
            var w := Waits(start, start, q[1..], env);
            && (w.Gone? ==> Rounds(now, q, env) == [])
            && (w.Fired? ==>
                  Rounds(now, q, env) ==
                  [Round(start, w.at, [q[0]] + w.heard)] + Rounds(w.at + Lasts(env), w.rest, Later(env)))
  {
    hide Waits;
  }

  lemma SpacedStep(r: Round, rs: seq<Round>, now: nat)
    requires Timely(r) && r.fired <= now && Spaced(rs)
    requires forall i :: 0 <= i < |rs| ==> Timely(rs[i]) && now <= rs[i].armed
    ensures Spaced([r] + rs)
    ensures forall i :: 0 <= i < |[r] + rs| ==> Timely(([r] + rs)[i]) && r.armed <= ([r] + rs)[i].armed
  {
    hide Reason, LastReceived;
    var all := [r] + rs;
    forall i | 0 < i < |all|
      ensures all[i - 1].fired <= all[i].armed && all[i - 1].fired + CUTOFF <= all[i].fired
    {
      assert all[i] == rs[i - 1];
      assert i > 1 ==> all[i - 1] == rs[i - 2];
    }
  }

  /** In every run, whatever the environment does, all rounds are timely and spaced. */
  lemma {:induction false} RoundsTimely(now: nat, q: seq<nat>, env: Env)
    ensures var rs := Rounds(now, q, env);
            && (forall i :: 0 <= i < |rs| ==> Timely(rs[i]) && now <= rs[i].armed)
            && Spaced(rs)
    decreases |q|
  {
    hide Waits, Timely, Spaced;
    if q == [] {
      NoneSpaced();
    } else {
      var start := Max(now, q[0]);
      var w := Waits(start, start, q[1..], env);
      RoundsStep(now, q, env);
      if w.Fired? {
        WaitsConserve(start, start, q[1..], env);
        RoundTimely(now, q, env);
        RoundsTimely(w.at + Lasts(env), w.rest, Later(env));
        var next := w.at + Lasts(env);
        SpacedStep(Round(start, w.at, [q[0]] + w.heard), Rounds(next, w.rest, Later(env)), next);
      } else {
        NoneSpaced();
      }
    }
  }

  lemma NoneSpaced()
    ensures Spaced([])
  {}

  /** Every signal is answered once and in order, as long as the senders stay. */
  lemma {:induction false} EverySignalAnswered(now: nat, q: seq<nat>, env: Env)
    requires env.close == None
    ensures Answered(Rounds(now, q, env)) == q
    decreases |q|
  {
    hide Waits, Rounds;
    if q == [] {
      NoRounds(now, env);
    } else {
      var start := Max(now, q[0]);
      var w := Waits(start, start, q[1..], env);
      RoundsStep(now, q, env);
      WaitsConserve(start, start, q[1..], env);
      NeverGone(start, start, q[1..], env);
      EverySignalAnswered(w.at + Lasts(env), w.rest, Later(env));
      AnsweredStep(Round(start, w.at, [q[0]] + w.heard), Rounds(w.at + Lasts(env), w.rest, Later(env)));
      assert q == [q[0]] + q[1..];
      ConcatAssoc([q[0]], w.heard, w.rest);
    }
  }

  lemma NoRounds(now: nat, env: Env)
    ensures Rounds(now, [], env) == []
  {}

  lemma AnsweredStep(r: Round, rs: seq<Round>)
    ensures Answered([r] + rs) == r.heard + Answered(rs)
  {
    assert ([r] + rs)[1..] == rs;
  }

  lemma {:induction false} NeverGone(start: nat, now: nat, q: seq<nat>, env: Env)
    requires start <= now && env.close == None
    ensures Waits(start, now, q, env).Fired?
    decreases |q|
  {
    if q != [] && Comes(now, q[0], env.seen) && Max(now, q[0]) - start < MAX_DELAY {
      NeverGone(start, Max(now, q[0]), q[1..], env);
    }
  }

  /** Signals that are still queued when a round ends came no earlier, if none waited before it. */
  lemma {:induction false} WaitsLeave(start: nat, now: nat, q: seq<nat>, env: Env)
    requires start <= now && Rising(q) && (q != [] ==> now <= q[0])
    ensures var w := Waits(start, now, q, env); w.Fired? && w.rest != [] ==> w.at <= w.rest[0]
    decreases |q|
  {
    if q != [] && Comes(now, q[0], env.seen) && q[0] - start < MAX_DELAY {
      WaitsLeave(start, q[0], q[1..], env);
    }
  }

  lemma RisingParts(a: seq<nat>, b: seq<nat>)
    requires Rising(a + b)
    ensures Rising(b) && (a != [] ==> forall x :: x in a ==> a[0] <= x)
  {
    assert forall i :: 0 <= i < |b| ==> b[i] == (a + b)[|a| + i];
    forall x | x in a
      ensures a[0] <= x
    {
      var i :| 0 <= i < |a| && a[i] == x;
      assert (a + b)[0] == a[0] && (a + b)[i] == x;
    }
  }

  ghost predicate InTime(r: Round) {
    forall a :: a in r.heard ==> a <= r.fired < a + MAX_DELAY + CUTOFF
  }

  lemma FirstInTime(q: seq<nat>, env: Env)
    requires q != [] && Rising(q) && Waits(q[0], q[0], q[1..], env).Fired?
    ensures var w := Waits(q[0], q[0], q[1..], env);
            InTime(Round(q[0], w.at, [q[0]] + w.heard)) && Rising(w.rest) && (w.rest != [] ==> w.at <= w.rest[0])
  {
    hide Waits, Reason, LastReceived;
    var w := Waits(q[0], q[0], q[1..], env);
    RoundTimely(q[0], q, env);
    WaitsConserve(q[0], q[0], q[1..], env);
    assert q == [q[0]] + q[1..];
    ConcatAssoc([q[0]], w.heard, w.rest);
    RisingParts([q[0]] + w.heard, w.rest);
    RisingParts([q[0]], q[1..]);
    WaitsLeave(q[0], q[0], q[1..], env);
  }

  /** With callbacks that take no time, every signal is answered less than nine seconds after it came. */
  lemma {:induction false} SignalsAnsweredInTime(now: nat, q: seq<nat>, env: Env)
    requires env.lasts == [] && Rising(q) && (q != [] ==> now <= q[0])
    ensures var rs := Rounds(now, q, env); forall i :: 0 <= i < |rs| ==> InTime(rs[i])
    decreases |q|
  {
    hide Waits, Rounds, InTime, Rising;
    if q == [] {
      NoRounds(now, env);
    } else {
      var w := Waits(q[0], q[0], q[1..], env);
      RoundsStep(now, q, env);
      if w.Fired? {
        FirstInTime(q, env);
        WaitsConserve(q[0], q[0], q[1..], env);
        SignalsAnsweredInTime(w.at, w.rest, env);
      }
    }
  }

  // ---------- senders that go away ----------

  /** The thread returns without a call: nothing is queued, and the senders go away in a quiet time. */
  ghost predicate Leaves(now: nat, w: Waited, env: Env)
    requires w.Fired?
  {
    && w.rest == [] && w.at == LastReceived(now, w.heard) + CUTOFF
    && env.close.Some? && Comes(LastReceived(now, w.heard), env.close.value, env.seen)
  }

  /** The senders' going changes a round only if it comes in its last wait. */
  lemma {:induction false} WaitsClose(start: nat, now: nat, q: seq<nat>, env: Env)
    requires start <= now
    ensures var w := Waits(start, now, q, env.(close := None));
            w.Fired? && Waits(start, now, q, env) == if Leaves(now, w, env) then Gone(w.heard) else w
    decreases |q|
  {
    var open := env.(close := None);
    if q != [] && Comes(now, q[0], env.seen) {
      var t := Max(now, q[0]);
      if t - start < MAX_DELAY {
        WaitsClose(start, t, q[1..], env);
      }
      var w := if t - start < MAX_DELAY then Waits(start, t, q[1..], open) else Fired(t, [], q[1..]);
      assert ([q[0]] + w.heard)[1..] == w.heard;
    }
  }

  /** The last round, of those there would be if the senders stayed, is called: the senders go away
      after it, or as it fires and are not seen to go, or it is not a quiet time that ends it. */
  ghost predicate LastCalled(rs: seq<Round>, env: Env) {
    rs == [] || env.close.None? ||
    var last := rs[|rs| - 1];
    || env.close.value > last.fired || (env.close.value == last.fired && last.fired !in env.seen)
    || last.fired == LastReceived(last.armed, last.heard)
  }

  /** Every signal is answered if and only if the last round is called. */
  lemma {:induction false} AnsweredIff(now: nat, q: seq<nat>, env: Env)
    ensures Answered(Rounds(now, q, env)) == q <==> LastCalled(Rounds(now, q, env.(close := None)), env)
    decreases |q|
  {
    hide Waits, Rounds;
    var open := env.(close := None);
    if q == [] {
      NoRounds(now, env);
      NoRounds(now, open);
    } else {
      var start := Max(now, q[0]);
      var w := Waits(start, start, q[1..], open);
      WaitsClose(start, start, q[1..], env);
      WaitsReason(start, start, q[1..], open);
      RoundsStep(now, q, env);
      RoundsStep(now, q, open);
      var r := Round(start, w.at, [q[0]] + w.heard);
      LastOfRound(start, q[0], w.heard);
      var next := w.at + Lasts(env);
      assert Later(open) == Later(env).(close := None);
      NoRounds(next, Later(open));
      if Leaves(start, w, env) {
        LastAlone(r, Rounds(next, w.rest, Later(open)), env);
      } else {
        WaitsConserve(start, start, q[1..], open);
        AnsweredIff(next, w.rest, Later(env));
        AnsweredStep(r, Rounds(next, w.rest, Later(env)));
        SameTail(q, r.heard, w.rest, Answered(Rounds(next, w.rest, Later(env))));
        LastLater(r, Rounds(next, w.rest, Later(open)), env);
        RoundsUnlessEmpty(next, w.rest, Later(open));
      }
    }
  }

  lemma LastOfRound(start: nat, first: nat, heard: seq<nat>)
    requires start >= first
    ensures LastReceived(start, [first] + heard) == LastReceived(start, heard)
  {
    assert ([first] + heard)[1..] == heard;
  }

  lemma LastAlone(r: Round, more: seq<Round>, env: Env)
    requires more == []
    ensures LastCalled([r] + more, env) <==> LastCalled([r], env)
  {
    assert [r] + more == [r];
  }

  lemma LastLater(r: Round, more: seq<Round>, env: Env)
    ensures more != [] ==> (LastCalled([r] + more, env) <==> LastCalled(more, env))
    ensures more == [] ==> (LastCalled([r] + more, env) <==> LastCalled([r], env))
  {
    var all := [r] + more;
    assert more != [] ==> all[|all| - 1] == more[|more| - 1];
    assert more == [] ==> all == [r];
  }

  lemma SameTail(q: seq<nat>, heard: seq<nat>, rest: seq<nat>, answered: seq<nat>)
    requires q == heard + rest
    ensures heard + answered == q <==> answered == rest
  {
    if heard + answered == q {
      assert answered == q[|heard|..] == rest;
    }
  }

  lemma RoundsUnlessEmpty(now: nat, q: seq<nat>, env: Env)
    requires env.close == None
    ensures q != [] ==> Rounds(now, q, env) != []
  {
    if q != [] {
      var start := Max(now, q[0]);
      NeverGone(start, start, q[1..], env);
      RoundsStep(now, q, env);
    }
  }

  /** A lone signal whose senders go away within the cutoff: the thread returns without a call. Later
      it calls. */
  lemma SendersLeave(a: nat, closed: nat, seen: set<nat>)
    ensures Rounds(0, [a], Env(Some(closed), seen, [])) ==
            if Comes(a, closed, seen) then [] else [Round(a, a + CUTOFF, [a])]
  {
    var q: seq<nat>, env := [a], Env(Some(closed), seen, []);
    assert q[1..] == [] && [a] + [] == [a];
    RoundsStep(0, q, env);
    NoRounds(a + CUTOFF, Later(env));
  }

  // ---------- the six-second cap ----------

  /** A round goes on past the cap if and only if its last signal comes so late that the quiet time
      after it does, or after the cap itself. */
  lemma CapKeptIff(r: Round)
    requires Timely(r)
    ensures var last := LastReceived(r.armed, r.heard);
            r.fired <= r.armed + MAX_DELAY <==> last <= r.armed + MAX_DELAY - CUTOFF || last == r.armed + MAX_DELAY
  {}

  /** Three signals 2.9 seconds apart: one callback, 8.8 seconds after the first. */
  lemma CapPassed(seen: set<nat>)
    ensures Rounds(0, [0, 2_900_000_000, 5_800_000_000], Env(None, seen, [])) ==
            [Round(0, 8_800_000_000, [0, 2_900_000_000, 5_800_000_000])]
  {
    var q: seq<nat>, env := [0, 2_900_000_000, 5_800_000_000], Env(None, seen, []);
    var rest: seq<nat> := [2_900_000_000, 5_800_000_000];
    var last: seq<nat> := [5_800_000_000];
    assert q[1..] == rest && rest[1..] == last && last[1..] == [];
    assert Waits(0, 5_800_000_000, [], env) == Fired(8_800_000_000, [], []);
    assert Waits(0, 2_900_000_000, last, env) == Fired(8_800_000_000, last, []) by {
      assert last + [] == last;
    }
    assert Waits(0, 0, rest, env) == Fired(8_800_000_000, rest, []) by {
      assert [2_900_000_000] + last == rest;
    }
    RoundsStep(0, q, env);
    NoRounds(8_800_000_000, Later(env));
    assert [0] + rest == q && [Round(0, 8_800_000_000, q)] + [] == [Round(0, 8_800_000_000, q)];
  }

  /** A signal after those: from six seconds on it is answered at once, and before that after three more. */
  lemma CapReached(x: nat, seen: set<nat>)
    requires 5_800_000_000 <= x < 8_800_000_000
    ensures var q: seq<nat> := [0, 2_900_000_000, 5_800_000_000, x];
            Rounds(0, q, Env(None, seen, [])) == [Round(0, if x < 6_000_000_000 then x + 3_000_000_000 else x, q)]
  {
    var q: seq<nat>, env := [0, 2_900_000_000, 5_800_000_000, x], Env(None, seen, []);
    var rest: seq<nat> := [2_900_000_000, 5_800_000_000, x];
    var last: seq<nat>, end: seq<nat> := [5_800_000_000, x], [x];
    var at := if x < 6_000_000_000 then x + 3_000_000_000 else x;
    assert q[1..] == rest && rest[1..] == last && last[1..] == end && end[1..] == [];
    assert Waits(0, 5_800_000_000, end, env) == Fired(at, end, []) by {
      assert end + [] == end;
    }
    assert Waits(0, 2_900_000_000, last, env) == Fired(at, last, []) by {
      assert [5_800_000_000] + end == last;
    }
    assert Waits(0, 0, rest, env) == Fired(at, rest, []) by {
      assert [2_900_000_000] + last == rest;
    }
    RoundsStep(0, q, env);
    NoRounds(at, Later(env));
    assert [0] + rest == q && [Round(0, at, q)] + [] == [Round(0, at, q)];
  }

  // ---------- the thread ----------

  /** One round from when the timer is armed: the inner loop. */
  method AwaitQuiet(start: nat, signals: seq<nat>, env: Env) returns (r: Waited)
    ensures r == Waits(start, start, signals, env)
  {
    var now, i := start, 0;
    var heard: seq<nat> := [];
    NothingHeard(Waits(start, start, signals, env));
    while i < |signals| && Comes(now, signals[i], env.seen)
      invariant i <= |signals| && start <= now
      invariant Waits(start, start, signals, env) == AllHeard(heard, Waits(start, now, signals[i..], env))
    {
      var a := signals[i];
      assert signals[i..][1..] == signals[i + 1..];
      now := Max(now, a);
      if now - start >= MAX_DELAY {
        OneHeard(heard, a, Fired(now, [], signals[i + 1..]));
        assert heard + [a] + [] == heard + [a];
        return Fired(now, heard + [a], signals[i + 1..]);
      }
      OneHeard(heard, a, Waits(start, now, signals[i + 1..], env));
      heard, i := heard + [a], i + 1;
    }
    assert heard + [] == heard;
    if i == |signals| && env.close.Some? && Comes(now, env.close.value, env.seen) {
      return Gone(heard);
    }
    r := Fired(now + CUTOFF, heard, signals[i..]);
  }

  function AllHeard(heard: seq<nat>, w: Waited): Waited {
    match w
    case Fired(at, more, rest) => Fired(at, heard + more, rest)
    case Gone(more) => Gone(heard + more)
  }

  lemma NothingHeard(w: Waited)
    ensures AllHeard([], w) == w
  {
    assert [] + w.heard == w.heard;
  }

  lemma OneHeard(heard: seq<nat>, a: nat, w: Waited)
    ensures AllHeard(heard, Heard(a, w)) == AllHeard(heard + [a], w)
  {
    assert heard + ([a] + w.heard) == heard + [a] + w.heard;
  }

  /** The outer loop: a round for each signal that finds the timer unarmed. */
  method Debounce(signals: seq<nat>, env: Env) returns (rounds: seq<Round>)
    ensures rounds == Rounds(0, signals, env)
  {
    hide Waits, Rounds;
    var now: nat, q, e := 0, signals, env;
    assert [] + Rounds(0, signals, env) == Rounds(0, signals, env);
    rounds := [];
    while q != []
      invariant Rounds(0, signals, env) == rounds + Rounds(now, q, e)
      decreases |q|
    {
      RoundsStep(now, q, e);
      var start := Max(now, q[0]);
      WaitsConserve(start, start, q[1..], e);
      var w := AwaitQuiet(start, q[1..], e);
      if w.Gone? {
        return rounds + [];
      }
      var r := Round(start, w.at, [q[0]] + w.heard);
      ConcatAssoc(rounds, [r], Rounds(w.at + Lasts(e), w.rest, Later(e)));
      rounds := rounds + [r];
      now, q, e := w.at + Lasts(e), w.rest, Later(e);
    }
    NoRounds(now, e);
    assert rounds + [] == rounds;
  }
}
