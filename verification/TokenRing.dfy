/**
  The ring benchmarks: federate 0 emits a token, and every federate passes on what it
  receives, through publications and subscriptions (`RingTransmitFederate.hpp`) or through
  endpoints and messages (`RingTransmitMessageFederate.hpp`). The federates run in any order
  and each may reach its final time at any moment.
  */
module TokenRing {
  import opened Wrappers

  function Ones(n: nat): (s: string)
    ensures |s| == n && forall i :: 0 <= i < n ==> s[i] == '1'
  {
    if n == 0 then "" else Ones(n - 1) + ['1']
  }

  /** The text that federate 0 emits. */
  const TOKEN: string := Ones(100)

  /** Whose publication federate `i` subscribes to. */
  function Pred(n: nat, i: nat): (p: nat)
    requires i < n
    ensures p < n
  {
    if i == 0 then n - 1 else i - 1
  }

  /** Where the endpoint of federate `i` sends to. */
  function Succ(n: nat, i: nat): (s: nat)
    requires i < n
    ensures s < n && Pred(n, s) == i
  {
    if i == n - 1 then 0 else i + 1
  }

  /** One federate getting its turn: federate 0 entering the ring, a federate being granted
      time, or a federate reaching its final time. */
  datatype Event = Start | Wake(i: nat) | Stop(i: nat)

  // ---------- one federate ----------

  /** The answer to a time request: the time granted and the text received by then, if any. */
  datatype Grant = Grant(time: int, update: Option<string>)

  /** The grants a federate asks for: up to the first that reaches the final time. */
  function Asked(grants: seq<Grant>, now: int, final: int): seq<Grant>
    decreases |grants|
  {
    if grants == [] || now >= final then [] else [grants[0]] + Asked(grants[1..], grants[0].time, final)
  }

  /** Those are a prefix of all: none if the final time has come, otherwise all whose
      predecessors lie before it. */
  lemma {:induction false} AskedIs(grants: seq<Grant>, now: int, final: int)
    ensures var k := |Asked(grants, now, final)|;
            && k <= |grants| && Asked(grants, now, final) == grants[..k]
            && (k == 0 <==> grants == [] || now >= final)
            && (forall j :: 0 <= j < k - 1 ==> grants[j].time < final)
            && (0 < k < |grants| ==> grants[k - 1].time >= final)
    decreases |grants|
  {
    if grants != [] && now < final {
      AskedIs(grants[1..], grants[0].time, final);
    }
  }

  function Texts(grants: seq<Grant>): seq<string> {
    if grants == [] then []
    else (if grants[0].update.Some? then [grants[0].update.value] else []) + Texts(grants[1..])
  }

  class Federate {
    var loopCount: nat
    var sent: seq<string>

    constructor ()
      ensures loopCount == 0 && sent == []
    {
      loopCount, sent := 0, [];
    }

    method Emit(text: string)
      modifies this
      ensures sent == old(sent) + [text] && loopCount == old(loopCount) + 1
    {
      sent := sent + [text];
      loopCount := loopCount + 1;
    }

    /** Sends on every text received before its final time or with the grant that reaches it,
        in order and unchanged, after the token if it is federate 0; one loop counted each.
        The grants may end before the final time: then the federate is still waiting. */
    method MainLoop(index: nat, deltaTime: int, finalTime: int, grants: seq<Grant>)
      modifies this
      ensures sent == old(sent) + (if index == 0 then [TOKEN] else []) + Texts(Asked(grants, deltaTime, finalTime))
      ensures loopCount - old(loopCount) == |sent| - |old(sent)|
    {
      if index == 0 {
        Emit(TOKEN);
      }
      ghost var start := sent;
      var nextTime, i := deltaTime, 0;
      while nextTime < finalTime && i < |grants|
        invariant i <= |grants|
        invariant sent + Texts(Asked(grants[i..], nextTime, finalTime)) ==
                  start + Texts(Asked(grants, deltaTime, finalTime))
        invariant loopCount - old(loopCount) == |sent| - |old(sent)|
        decreases |grants| - i
      {
        nextTime := grants[i].time;
        if grants[i].update.Some? {
          Emit(grants[i].update.value);
        }
        i := i + 1;
      }
      assert Asked(grants[i..], nextTime, finalTime) == [];
      assert sent + [] == sent;
    }
  }

  // ---------- the ring of publications ----------

  /** Per federate: whether it has stopped, whether its subscription has an update not yet
      read, the text last published to it, and its loop count. The log lists who published. */
  datatype Ring = Ring(started: bool, stopped: seq<bool>, updated: seq<bool>, text: seq<string>,
                       loops: seq<nat>, log: seq<nat>)

  predicate OfSize(s: Ring, n: nat) {
    n > 0 && |s.stopped| == n && |s.updated| == n && |s.text| == n && |s.loops| == n
  }

  function NewRing(n: nat): (s: Ring)
    requires n > 0
    ensures OfSize(s, n)
  {
    Ring(false, seq(n, _ => false), seq(n, _ => false), seq(n, _ => ""), seq(n, _ => 0), [])
  }

  /** Publication number `i` reaches every federate that subscribes to it. */
  function Publish(s: Ring, n: nat, i: nat, text: string): (s': Ring)
    requires OfSize(s, n) && i < n
    ensures OfSize(s', n)
  {
    s.(updated := seq(n, j requires 0 <= j < n => s.updated[j] || Pred(n, j) == i),
       text := seq(n, j requires 0 <= j < n => if Pred(n, j) == i then text else s.text[j]),
       loops := s.loops[i := s.loops[i] + 1],
       log := s.log + [i])
  }

  /** Federate 0 runs its loop only after it has emitted the token. */
  predicate InLoop(s: Ring, i: nat)
    requires i < |s.stopped|
  {
    !s.stopped[i] && (i == 0 ==> s.started)
  }

  function Step(s: Ring, n: nat, e: Event): (s': Ring)
    requires OfSize(s, n)
    ensures OfSize(s', n)
  {
    match e
    case Start =>
      if s.started then s else Publish(s, n, 0, TOKEN).(started := true)
    case Wake(i) =>
      if i < n && InLoop(s, i) && s.updated[i] then
        Publish(s.(updated := s.updated[i := false]), n, i, s.text[i])
      else s
    case Stop(i) =>
      if i < n && InLoop(s, i) then s.(stopped := s.stopped[i := true]) else s
  }

  function Run(s: Ring, n: nat, events: seq<Event>): (s': Ring)
    requires OfSize(s, n)
    ensures OfSize(s', n)
  {
    if events == [] then s
    else Step(Run(s, n, events[..|events| - 1]), n, events[|events| - 1])
  }

  // ---------- what every run keeps ----------

  /** The federate after `t` hops. */
  function Hop(n: nat, t: nat): (i: nat)
    requires n > 0
    ensures i < n
  {
    if t == 0 then 0 else Succ(n, Hop(n, t - 1))
  }

  /** The token has gone around `q` times and on to federate `r`, which is the only one with
      an update; federates before it have one turn more. */
  predicate At(s: Ring, n: nat, q: nat, r: nat) {
    && OfSize(s, n)
    && r < n
    && (!s.started ==> q == 0 && r == 0)
    && (forall j :: 0 <= j < n ==> s.updated[j] == (s.started && j == r))
    && (forall j :: 0 <= j < n ==> s.loops[j] == if j < r then q + 1 else q)
    && (s.started ==> s.text[r] == TOKEN)
    && r == Hop(n, |s.log|)
    && (forall k :: 0 <= k < |s.log| ==> s.log[k] == Hop(n, k))
  }

  /** Publishing where the token is takes it one hop further. */
  lemma PublishHops(s: Ring, n: nat, q: nat, r: nat)
    requires At(s, n, q, r)
    ensures var s' := Publish(s.(updated := s.updated[r := false]), n, r, TOKEN).(started := true);
            if r + 1 < n then At(s', n, q, r + 1) else At(s', n, q + 1, 0)
  {
    var s' := Publish(s.(updated := s.updated[r := false]), n, r, TOKEN).(started := true);
    assert Hop(n, |s'.log|) == Succ(n, r);
    assert forall k :: 0 <= k < |s.log| ==> s'.log[k] == s.log[k];
  }

  lemma StepKeepsAt(s: Ring, n: nat, e: Event, q: nat, r: nat) returns (q': nat, r': nat)
    requires At(s, n, q, r)
    ensures At(Step(s, n, e), n, q', r')
  {
    q', r' := q, r;
    PublishHops(s, n, q, r);
    match e {
      case Start =>
        if !s.started {
          assert s.updated[0 := false] == s.updated;
          q', r' := if 1 < n then 0 else 1, if 1 < n then 1 else 0;
        }
      case Wake(i) =>
        if i < n && InLoop(s, i) && s.updated[i] {
          q', r' := if r + 1 < n then q else q + 1, if r + 1 < n then r + 1 else 0;
        }
      case Stop(i) =>
    }
  }

  lemma {:induction false} RunIsAt(n: nat, events: seq<Event>) returns (q: nat, r: nat)
    requires n > 0
    ensures At(Run(NewRing(n), n, events), n, q, r)
  {
    if events == [] {
      return 0, 0;
    }
    q, r := RunIsAt(n, events[..|events| - 1]);
    q, r := StepKeepsAt(Run(NewRing(n), n, events[..|events| - 1]), n, events[|events| - 1], q, r);
  }

  predicate TokenOnlyAt(s: Ring, r: nat) {
    r < |s.updated| && forall j :: 0 <= j < |s.updated| ==> s.updated[j] == (j == r)
  }

  /** Loop counts fall along the ring, by at most one in all. */
  predicate Balanced(loops: seq<nat>) {
    && (forall i, j :: 0 <= i <= j < |loops| ==> loops[j] <= loops[i])
    && (forall i, j :: 0 <= i < |loops| && 0 <= j < |loops| ==> loops[i] <= loops[j] + 1)
  }

  /** In every run: no token before the start and one after it, passed on around the ring in
      order, and the loop counts never more than one apart. */
  lemma EveryRunIsSafe(n: nat, events: seq<Event>)
    requires n > 0
    ensures var s := Run(NewRing(n), n, events);
            && (if s.started then exists r :: TokenOnlyAt(s, r) else forall j :: 0 <= j < n ==> !s.updated[j])
            && (forall j :: 0 <= j < n && s.updated[j] ==> s.text[j] == TOKEN)
            && (forall k :: 0 <= k < |s.log| ==> s.log[k] == Hop(n, k))
            && Balanced(s.loops)
  {
    var q, r := RunIsAt(n, events);
    var s := Run(NewRing(n), n, events);
    assert s.started ==> TokenOnlyAt(s, r);
  }

  // ---------- progress ----------

  /** `Wake` for the federates from `i` on. */
  function WakeFrom(n: nat, i: nat): seq<Event>
    requires i <= n
    decreases n - i
  {
    if i == n then [] else [Wake(i)] + WakeFrom(n, i + 1)
  }

  function Rounds(n: nat, m: nat): seq<Event> {
    if m == 0 then [] else Rounds(n, m - 1) + WakeFrom(n, 0)
  }

  predicate AllInLoop(s: Ring) {
    s.started && forall j :: 0 <= j < |s.stopped| ==> !s.stopped[j]
  }

  lemma {:induction false} RunSplits(s: Ring, n: nat, a: seq<Event>, b: seq<Event>)
    requires OfSize(s, n)
    ensures Run(s, n, a + b) == Run(Run(s, n, a), n, b)
    decreases |b|
  {
    if b == [] {
      assert a + b == a;
    } else {
      var c := a + b;
      assert c[..|c| - 1] == a + b[..|b| - 1];
      RunSplits(s, n, a, b[..|b| - 1]);
    }
  }

  /** Waking the rest of the ring in order brings the token home. */
  lemma {:induction false} TokenComesHome(s: Ring, n: nat, q: nat, r: nat)
    requires At(s, n, q, r) && AllInLoop(s)
    ensures var s' := Run(s, n, WakeFrom(n, r));
            At(s', n, q + 1, 0) && AllInLoop(s')
    decreases n - r
  {
    var s1 := Step(s, n, Wake(r));
    WakeHops(s, n, q, r);
    RunFirst(s, n, Wake(r), WakeFrom(n, r + 1));
    assert Run(s, n, WakeFrom(n, r)) == Run(s1, n, WakeFrom(n, r + 1));
    if r + 1 < n {
      TokenComesHome(s1, n, q, r + 1);
    } else {
      NoneToWake(s1, n);
    }
  }

  lemma NoneToWake(s: Ring, n: nat)
    requires OfSize(s, n)
    ensures Run(s, n, WakeFrom(n, n)) == s
  {
  }

  lemma WakeHops(s: Ring, n: nat, q: nat, r: nat)
    requires At(s, n, q, r) && AllInLoop(s)
    ensures var s' := Step(s, n, Wake(r));
            AllInLoop(s') && if r + 1 < n then At(s', n, q, r + 1) else At(s', n, q + 1, 0)
  {
    PublishHops(s, n, q, r);
  }

  lemma RunFirst(s: Ring, n: nat, e: Event, rest: seq<Event>)
    requires OfSize(s, n)
    ensures Run(s, n, [e] + rest) == Run(Step(s, n, e), n, rest)
  {
    assert [e][..0] == [];
    assert Run(s, n, [e]) == Step(s, n, e);
    RunSplits(s, n, [e], rest);
  }

  /** The token is with federate 0 after `q` rounds, and everyone is running. */
  predicate IsHome(s: Ring, n: nat, q: nat) {
    At(s, n, q, 0) && AllInLoop(s)
  }

  lemma RoundComesHome(s: Ring, n: nat, q: nat)
    requires IsHome(s, n, q)
    ensures IsHome(Run(s, n, WakeFrom(n, 0)), n, q + 1)
  {
    TokenComesHome(s, n, q, 0);
  }

  lemma {:induction false} RoundsMakeProgress(s: Ring, n: nat, q: nat, m: nat)
    requires IsHome(s, n, q)
    ensures IsHome(Run(s, n, Rounds(n, m)), n, q + m)
  {
    if m > 0 {
      RoundsMakeProgress(s, n, q, m - 1);
      RunSplits(s, n, Rounds(n, m - 1), WakeFrom(n, 0));
      RoundComesHome(Run(s, n, Rounds(n, m - 1)), n, q + m - 1);
    }
  }

  /** If federate 0 starts and the federates are granted time in turn, every federate has
      counted exactly one loop a round. */
  lemma FairRunsCountRounds(n: nat, m: nat)
    requires n > 0
    ensures var s := Run(NewRing(n), n, [Start] + WakeFrom(n, 1) + Rounds(n, m));
            forall j :: 0 <= j < n ==> s.loops[j] == m + 1
  {
    var s0 := NewRing(n);
    var s1 := Run(s0, n, [Start]);
    assert [Start][..0] == [];
    assert At(s0, n, 0, 0);
    PublishHops(s0, n, 0, 0);
    assert s0.updated[0 := false] == s0.updated;
    RunSplits(s0, n, [Start], WakeFrom(n, 1));
    RunSplits(s0, n, [Start] + WakeFrom(n, 1), Rounds(n, m));
    var s2 := Run(s1, n, WakeFrom(n, 1));
    if n > 1 {
      TokenComesHome(s1, n, 0, 1);
    }
    RoundsMakeProgress(s2, n, 1, m);
  }

  /** Once the federate with the token has stopped, nothing more is passed on. */
  lemma {:induction false} StoppedHolderEndsRing(s: Ring, n: nat, q: nat, r: nat, events: seq<Event>)
    requires At(s, n, q, r) && s.started && s.stopped[r]
    ensures var s' := Run(s, n, events);
            At(s', n, q, r) && s'.started && s'.stopped[r] && s'.loops == s.loops && s'.log == s.log
  {
    if events != [] {
      StoppedHolderEndsRing(s, n, q, r, events[..|events| - 1]);
    }
  }

  /** Being granted time passes the token on exactly if it is there and the federate runs;
      otherwise nothing happens. */
  lemma WakePassesIff(s: Ring, n: nat, q: nat, r: nat, i: nat)
    requires At(s, n, q, r)
    ensures var s' := Step(s, n, Wake(i));
            if s.started && i == r && !s.stopped[r] then
              s'.log == s.log + [r] && s'.stopped == s.stopped && s'.started
              && (if r + 1 < n then At(s', n, q, r + 1) else At(s', n, q + 1, 0))
            else s' == s
  {
    PublishHops(s, n, q, r);
  }

  lemma {:induction false} StartedIff(n: nat, events: seq<Event>)
    requires n > 0
    ensures Run(NewRing(n), n, events).started <==> Start in events
  {
    if events != [] {
      var k := |events| - 1;
      StartedIff(n, events[..k]);
      assert events == events[..k] + [events[k]];
    }
  }

  /** The federate was told to stop, federate 0 after its start. */
  ghost predicate IsStopped(events: seq<Event>, j: nat) {
    exists k :: 0 <= k < |events| && events[k] == Stop(j) && (j == 0 ==> Start in events[..k])
  }

  /** In every run exactly those federates are out of the loop. */
  lemma {:induction false} StoppedIff(n: nat, events: seq<Event>, j: nat)
    requires j < n
    ensures Run(NewRing(n), n, events).stopped[j] <==> IsStopped(events, j)
  {
    if events != [] {
      var k := |events| - 1;
      StoppedIff(n, events[..k], j);
      StartedIff(n, events[..k]);
      StoppedNext(events, j);
    }
  }

  lemma StoppedNext(events: seq<Event>, j: nat)
    requires events != []
    ensures var k := |events| - 1;
            IsStopped(events, j) <==>
            IsStopped(events[..k], j) || (events[k] == Stop(j) && (j == 0 ==> Start in events[..k]))
  {
    var k := |events| - 1;
    if IsStopped(events[..k], j) {
      var m :| 0 <= m < k && events[..k][m] == Stop(j) && (j == 0 ==> Start in events[..k][..m]);
      assert events[..k][..m] == events[..m] && events[m] == Stop(j);
    }
    if IsStopped(events, j) {
      var m :| 0 <= m < |events| && events[m] == Stop(j) && (j == 0 ==> Start in events[..m]);
      assert m < k ==> events[..k][m] == Stop(j) && events[..k][..m] == events[..m];
    }
  }

  // ---------- each federate in a run ----------

  lemma {:induction false} TextsAppend(a: seq<Grant>, b: seq<Grant>)
    ensures Texts(a + b) == Texts(a) + Texts(b)
    decreases |a|
  {
    if a == [] {
      assert a + b == b;
    } else {
      assert (a + b)[1..] == a[1..] + b;
      TextsAppend(a[1..], b);
    }
  }

  /** What a run grants federate `i`: whether there is an update each time it is woken, at
      time 0 before the final time 1. */
  function Granted(n: nat, events: seq<Event>, i: nat): seq<Grant>
    requires i < n
  {
    if events == [] then []
    else
      var before := events[..|events| - 1];
      var s := Run(NewRing(n), n, before);
      Granted(n, before, i) +
      (if events[|events| - 1] == Wake(i) && InLoop(s, i) then
         [Grant(0, if s.updated[i] then Some(s.text[i]) else None)]
       else [])
  }

  /** How often federate `i` has published. */
  function Published(log: seq<nat>, i: nat): nat {
    if log == [] then 0 else Published(log[..|log| - 1], i) + (if log[|log| - 1] == i then 1 else 0)
  }

  lemma {:induction false} AllAsked(n: nat, events: seq<Event>, i: nat)
    requires i < n
    ensures forall k :: 0 <= k < |Granted(n, events, i)| ==> Granted(n, events, i)[k].time == 0
  {
    if events != [] {
      AllAsked(n, events[..|events| - 1], i);
    }
  }

  lemma {:induction false} AskedIsAll(grants: seq<Grant>)
    requires forall k :: 0 <= k < |grants| ==> grants[k].time == 0
    ensures Asked(grants, 0, 1) == grants
    decreases |grants|
  {
    if grants != [] {
      AskedIsAll(grants[1..]);
    }
  }

  /** What the main loop of federate `i` sends on these grants. */
  function Sends(n: nat, events: seq<Event>, i: nat): seq<string>
    requires i < n
  {
    (if i == 0 && Run(NewRing(n), n, events).started then [TOKEN] else []) + Texts(Asked(Granted(n, events, i), 0, 1))
  }

  /** The step makes federate `i` publish. */
  predicate Publishes(s: Ring, e: Event, i: nat)
    requires i < |s.stopped| == |s.updated|
  {
    (e == Start && i == 0 && !s.started) || (e == Wake(i) && InLoop(s, i) && s.updated[i])
  }

  lemma SendsNext(n: nat, events: seq<Event>, i: nat)
    requires i < n && events != []
    ensures var before, e := events[..|events| - 1], events[|events| - 1];
            var s := Run(NewRing(n), n, before);
            Sends(n, events, i) == Sends(n, before, i) +
              (if Publishes(s, e, i) then [if e == Start then TOKEN else s.text[i]] else [])
  {
    var before, e := events[..|events| - 1], events[|events| - 1];
    AllAsked(n, before, i);
    AllAsked(n, events, i);
    AskedIsAll(Granted(n, before, i));
    AskedIsAll(Granted(n, events, i));
    NothingBeforeStart(n, before, i);
    TextsNext(n, events, i);
  }

  lemma TextsNext(n: nat, events: seq<Event>, i: nat)
    requires i < n && events != []
    ensures var before, e := events[..|events| - 1], events[|events| - 1];
            var s := Run(NewRing(n), n, before);
            Texts(Granted(n, events, i)) == Texts(Granted(n, before, i)) +
              (if e == Wake(i) && InLoop(s, i) && s.updated[i] then [s.text[i]] else [])
  {
    var before, e := events[..|events| - 1], events[|events| - 1];
    var s := Run(NewRing(n), n, before);
    var g := Granted(n, before, i);
    if e == Wake(i) && InLoop(s, i) {
      var last := [Grant(0, if s.updated[i] then Some(s.text[i]) else None)];
      TextsAppend(g, last);
      assert Texts(last) == if s.updated[i] then [s.text[i]] else [];
    } else {
      assert g + [] == g;
    }
  }

  lemma {:induction false} NothingBeforeStart(n: nat, events: seq<Event>, i: nat)
    requires i < n
    ensures !Run(NewRing(n), n, events).started ==> Texts(Granted(n, events, i)) == []
  {
    if events != [] {
      var before := events[..|events| - 1];
      NothingBeforeStart(n, before, i);
      var q, r := RunIsAt(n, before);
      var s := Run(NewRing(n), n, before);
      if events[|events| - 1] == Wake(i) && InLoop(s, i) {
        TextsAppend(Granted(n, before, i), [Grant(0, if s.updated[i] then Some(s.text[i]) else None)]);
      } else {
        assert Granted(n, events, i) == Granted(n, before, i);
      }
    }
  }

  predicate AllToken(ts: seq<string>) {
    forall k :: 0 <= k < |ts| ==> ts[k] == TOKEN
  }

  lemma PublishesToken(n: nat, events: seq<Event>, e: Event, i: nat)
    requires i < n && Publishes(Run(NewRing(n), n, events), e, i)
    ensures e != Start ==> Run(NewRing(n), n, events).text[i] == TOKEN
  {
    var q, r := RunIsAt(n, events);
  }

  /** In every run, what a federate sends by its main loop is the token, as often as the ring
      logs it and as its loop count says. */
  lemma {:induction false} FederateFollowsRing(n: nat, events: seq<Event>, i: nat)
    requires i < n
    ensures var s := Run(NewRing(n), n, events);
            |Sends(n, events, i)| == s.loops[i] == Published(s.log, i)
    ensures AllToken(Sends(n, events, i))
  {
    if events != [] {
      var before, e := events[..|events| - 1], events[|events| - 1];
      var s := Run(NewRing(n), n, before);
      FederateFollowsRing(n, before, i);
      SendsNext(n, events, i);
      LogNext(s, n, e, i);
      if Publishes(s, e, i) {
        PublishesToken(n, before, e, i);
        OneMoreToken(Sends(n, before, i), if e == Start then TOKEN else s.text[i]);
      } else {
        assert Sends(n, before, i) + [] == Sends(n, before, i);
      }
    }
  }

  lemma OneMoreToken(ts: seq<string>, t: string)
    requires AllToken(ts) && t == TOKEN
    ensures AllToken(ts + [t]) && |ts + [t]| == |ts| + 1
  {
  }

  /** One step adds to the log and the loop count of the federate that published. */
  lemma LogNext(s: Ring, n: nat, e: Event, i: nat)
    requires OfSize(s, n) && i < n
    ensures var s' := Step(s, n, e);
            var d := if Publishes(s, e, i) then 1 else 0;
            s'.loops[i] == s.loops[i] + d && Published(s'.log, i) == Published(s.log, i) + d
  {
    match e {
      case Start =>
        if !s.started {
          PublishLogs(s, n, 0, TOKEN, i);
        }
      case Wake(k) =>
        if k < n && InLoop(s, k) && s.updated[k] {
          PublishLogs(s.(updated := s.updated[k := false]), n, k, s.text[k], i);
        }
      case Stop(k) =>
    }
  }

  lemma PublishLogs(s: Ring, n: nat, k: nat, text: string, i: nat)
    requires OfSize(s, n) && k < n && i < n
    ensures var s' := Publish(s, n, k, text);
            var d := if k == i then 1 else 0;
            s'.loops[i] == s.loops[i] + d && Published(s'.log, i) == Published(s.log, i) + d
  {
    assert (s.log + [k])[..|s.log|] == s.log;
  }

  // ---------- the ring of messages ----------

  datatype Message = Message(dest: nat, source: nat, data: string)

  datatype MessageRing = MessageRing(started: bool, stopped: seq<bool>, inbox: seq<seq<Message>>, loops: seq<nat>)

  predicate MessagesOfSize(s: MessageRing, n: nat) {
    n > 0 && |s.stopped| == n && |s.inbox| == n && |s.loops| == n
  }

  function NewMessageRing(n: nat): (s: MessageRing)
    requires n > 0
    ensures MessagesOfSize(s, n)
  {
    MessageRing(false, seq(n, _ => false), seq(n, _ => []), seq(n, _ => 0))
  }

  /** Endpoint `i` sends to its default destination. */
  function Send(s: MessageRing, n: nat, i: nat, data: string): (s': MessageRing)
    requires MessagesOfSize(s, n) && i < n
    ensures MessagesOfSize(s', n)
  {
    var to := Succ(n, i);
    s.(inbox := s.inbox[to := s.inbox[to] + [Message(to, i, data)]],
       loops := s.loops[i := s.loops[i] + 1])
  }

  predicate MessageInLoop(s: MessageRing, i: nat)
    requires i < |s.stopped|
  {
    !s.stopped[i] && (i == 0 ==> s.started)
  }

  function MessageStep(s: MessageRing, n: nat, e: Event): (s': MessageRing)
    requires MessagesOfSize(s, n)
    ensures MessagesOfSize(s', n)
  {
    match e
    case Start =>
      if s.started then s else Send(s, n, 0, TOKEN).(started := true)
    case Wake(i) =>
      if i < n && MessageInLoop(s, i) && s.inbox[i] != [] then
        Send(s.(inbox := s.inbox[i := s.inbox[i][1..]]), n, i, s.inbox[i][0].data)
      else s
    case Stop(i) =>
      if i < n && MessageInLoop(s, i) then s.(stopped := s.stopped[i := true]) else s
  }

  function MessageRun(s: MessageRing, n: nat, events: seq<Event>): (s': MessageRing)
    requires MessagesOfSize(s, n)
    ensures MessagesOfSize(s', n)
  {
    if events == [] then s
    else MessageStep(MessageRun(s, n, events[..|events| - 1]), n, events[|events| - 1])
  }

  /** The same situation in both rings: a message for each update, from the right sender. */
  predicate Matches(m: MessageRing, s: Ring, n: nat) {
    && MessagesOfSize(m, n)
    && OfSize(s, n)
    && m.started == s.started
    && m.stopped == s.stopped
    && m.loops == s.loops
    && forall j :: 0 <= j < n ==> m.inbox[j] == if s.updated[j] then [Message(j, Pred(n, j), s.text[j])] else []
  }

  lemma PublishMatchesSend(m: MessageRing, s: Ring, n: nat, i: nat, text: string)
    requires Matches(m, s, n) && i < n && !s.updated[Succ(n, i)]
    ensures Matches(Send(m, n, i, text), Publish(s, n, i, text), n)
  {
  }

  lemma StepMatches(m: MessageRing, s: Ring, n: nat, e: Event, q: nat, r: nat)
    requires Matches(m, s, n) && At(s, n, q, r)
    ensures Matches(MessageStep(m, n, e), Step(s, n, e), n)
  {
    match e {
      case Start =>
        if !s.started {
          PublishMatchesSend(m, s, n, 0, TOKEN);
        }
      case Wake(i) =>
        if i < n && InLoop(s, i) && s.updated[i] {
          var s1 := s.(updated := s.updated[i := false]);
          var m1 := m.(inbox := m.inbox[i := m.inbox[i][1..]]);
          PublishMatchesSend(m1, s1, n, i, s.text[i]);
        }
      case Stop(i) =>
    }
  }

  /** The two rings do the same in every run: endpoints that send forward and subscriptions
      that look backward are the same ring. */
  lemma {:induction false} RingsAgree(n: nat, events: seq<Event>)
    requires n > 0
    ensures Matches(MessageRun(NewMessageRing(n), n, events), Run(NewRing(n), n, events), n)
  {
    if events != [] {
      var before := events[..|events| - 1];
      RingsAgree(n, before);
      var q, r := RunIsAt(n, before);
      StepMatches(MessageRun(NewMessageRing(n), n, before), Run(NewRing(n), n, before), n, events[|events| - 1], q, r);
    }
  }
}
