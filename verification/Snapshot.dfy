/** The live-snapshot hub and its event-stream subscribers: publish swaps the payload and closes the
    channel handed out with the previous one. Go's channels and buffers are numbered by creation. */
module Snapshot {
  import opened Prelude

  // ----- The hub -----

  /** A snapshot, with its JSON text if it can be encoded. */
  datatype StreamSnapshot = StreamSnapshot(json: Option<string>)

  /** An encoded snapshot; ident is the identity of its buffer, which is what subscribers compare. */
  datatype Payload = Payload(ident: nat, text: string)

  /** closed[c] tells whether channel c has been closed; published holds every buffer made. */
  datatype Hub = Hub(latest: Option<StreamSnapshot>, payload: Option<Payload>, changed: nat,
                     closed: seq<bool>, published: seq<Payload>)

  const NEW_HUB: Hub := Hub(None, None, 0, [false], [])

  /** Only the channel of the current payload is open, and the current payload is the last buffer. */
  ghost predicate ValidHub(h: Hub) {
    && |h.closed| == |h.published| + 1
    && h.changed == |h.published|
    && (forall c | 0 <= c < |h.closed| :: h.closed[c] <==> c < h.changed)
    && (forall k | 0 <= k < |h.published| :: h.published[k].ident == k)
    && h.payload == (if h.published == [] then None else Some(h.published[|h.published| - 1]))
  }

  function Published(h: Hub, snapshot: StreamSnapshot): Hub
    requires h.changed < |h.closed|
  {
    match snapshot.json
    case None => h
    case Some(text) =>
      var payload := Payload(|h.published|, text);
      Hub(Some(snapshot), Some(payload), |h.closed|, h.closed[h.changed := true] + [false], h.published + [payload])
  }

  class SnapshotHub {
    var latest: Option<StreamSnapshot>
    var payload: Option<Payload>
    var changed: nat
    var closed: seq<bool>
    var published: seq<Payload>

    ghost function State(): Hub
      reads this
    {
      Hub(latest, payload, changed, closed, published)
    }

    constructor ()
      ensures State() == NEW_HUB && ValidHub(State())
    {
      latest, payload, changed, closed, published := None, None, 0, [false], [];
    }

    /** Closing a closed channel would panic: the open one is always the one held. */
    method CloseChanged()
      requires changed < |closed| && !closed[changed]
      modifies `closed
      ensures closed == old(closed)[changed := true]
    {
      closed := closed[changed := true];
    }

    method Publish(snapshot: StreamSnapshot)
      requires ValidHub(State())
      modifies this
      ensures State() == Published(old(State()), snapshot) && ValidHub(State())
      ensures snapshot.json.None? ==> State() == old(State())
      ensures snapshot.json.Some? ==>
        && latest == Some(snapshot) && payload.Some? && payload.value.text == snapshot.json.value
        && (forall p | p in old(published) :: p.ident != payload.value.ident)
        && published == old(published) + [payload.value]
        && closed[old(changed)] && changed < |closed| && !closed[changed] && changed >= |old(closed)|
        && forall c | 0 <= c < |old(closed)| && c != old(changed) :: closed[c] == old(closed)[c]
    {
      if snapshot.json.None? { return; }
      var text := snapshot.json.value;
      var buffer := Payload(|published|, text);
      published := published + [buffer];
      latest := Some(snapshot);
      payload := Some(buffer);
      CloseChanged();
      changed := |closed|;
      closed := closed + [false];
    }

    method Current() returns (p: Option<Payload>, snapshot: Option<StreamSnapshot>, channel: nat)
      requires ValidHub(State())
      ensures p == payload && snapshot == latest && channel == changed && !closed[channel]
    {
      p, snapshot, channel := payload, latest, changed;
    }
  }

  // ----- One subscriber's loop -----

  /** Whether a subscriber that last sent `lastSent` sends what it read. */
  predicate MustSend(lastSent: Option<Payload>, payload: Option<Payload>) {
    payload.Some? && (lastSent.None? || payload.value.ident != lastSent.value.ident)
  }

  /** What ends a wait: the request's end, a closed channel, or a heartbeat whose write may fail. */
  datatype Event = Done | Changed | Heartbeat(ok: bool)

  /** One pass of the loop: what was read, whether a write would succeed, and what ended the wait. */
  datatype Round = Round(payload: Option<Payload>, ok: bool, event: Event)

  /** What one pass sends. */
  function SentBy(lastSent: Option<Payload>, r: Round): seq<Payload> {
    if MustSend(lastSent, r.payload) && r.ok then [r.payload.value] else []
  }

  function LastAfter(lastSent: Option<Payload>, r: Round): Option<Payload> {
    if MustSend(lastSent, r.payload) then r.payload else lastSent
  }

  predicate Leaves(lastSent: Option<Payload>, r: Round) {
    || (MustSend(lastSent, r.payload) && !r.ok)
    || r.event.Done?
    || r.event == Heartbeat(false)
  }

  /** What the loop sends from pass k on. */
  function Stream(lastSent: Option<Payload>, rounds: seq<Round>, k: nat): seq<Payload>
    decreases |rounds| - k
  {
    if k >= |rounds| then []
    else if Leaves(lastSent, rounds[k]) then SentBy(lastSent, rounds[k])
    else
      SentBy(lastSent, rounds[k]) + Stream(LastAfter(lastSent, rounds[k]), rounds, k + 1)
  }

  /** The stream from pass k on is `left`. */
  ghost predicate Streams(lastSent: Option<Payload>, rounds: seq<Round>, k: nat, left: seq<Payload>) {
    left == Stream(lastSent, rounds, k)
  }

  lemma OnePass(lastSent: Option<Payload>, rounds: seq<Round>, k: nat, left: seq<Payload>) returns (rest: seq<Payload>)
    requires k < |rounds| && Streams(lastSent, rounds, k, left)
    ensures left == SentBy(lastSent, rounds[k]) + rest
    ensures if Leaves(lastSent, rounds[k]) then rest == []
            else Streams(LastAfter(lastSent, rounds[k]), rounds, k + 1, rest)
  {
    rest := if Leaves(lastSent, rounds[k]) then [] else Stream(LastAfter(lastSent, rounds[k]), rounds, k + 1);
  }

  lemma Regrouped(sent: seq<Payload>, more: seq<Payload>, rest: seq<Payload>)
    ensures sent + (more + rest) == (sent + more) + rest
    ensures rest == [] ==> sent + (more + rest) == sent + more
    ensures more == [] ==> sent + more == sent
  {
  }

  /** handleEventStream, over the rounds its environment allows it. */
  method HandleEventStream(rounds: seq<Round>) returns (sent: seq<Payload>)
    ensures sent == Stream(None, rounds, 0)
  {
    sent := [];
    var lastSent: Option<Payload> := None;
    ghost var all, left := Stream(None, rounds, 0), Stream(None, rounds, 0);
    for k := 0 to |rounds|
      invariant all == sent + left && Streams(lastSent, rounds, k, left)
    {
      ghost var rest := OnePass(lastSent, rounds, k, left);
      Regrouped(sent, SentBy(lastSent, rounds[k]), rest);
      left := rest;
      var payload := rounds[k].payload;
      if payload.Some? && (lastSent.None? || payload.value.ident != lastSent.value.ident) {
        if !rounds[k].ok { return; }
        sent := sent + [payload.value];
        lastSent := payload;
      }
      if rounds[k].event.Done? || rounds[k].event == Heartbeat(false) { return; }
    }
  }

  /** The identity of the last payload read before pass i. */
  function LastRead(rounds: seq<Round>, i: nat): Option<nat>
    requires i <= |rounds|
  {
    if i == 0 then None
    else if rounds[i - 1].payload.Some? then Some(rounds[i - 1].payload.value.ident)
    else LastRead(rounds, i - 1)
  }

  /** Pass i reads a payload that the pass before it did not. */
  predicate NewAt(rounds: seq<Round>, i: nat)
    requires i < |rounds|
  {
    rounds[i].payload.Some? && LastRead(rounds, i) != Some(rounds[i].payload.value.ident)
  }

  /** The handler returns in pass i: the request ended, a heartbeat could not be written, or a new payload could
      not. */
  predicate ReturnsAt(rounds: seq<Round>, i: nat)
    requires i < |rounds|
  {
    rounds[i].event == Done || rounds[i].event == Heartbeat(false) || (NewAt(rounds, i) && !rounds[i].ok)
  }

  /** Pass i is reached, reads something new, and writes it. */
  ghost predicate SendsAt(rounds: seq<Round>, i: nat)
    requires i < |rounds|
  {
    (forall j | 0 <= j < i :: !ReturnsAt(rounds, j)) && NewAt(rounds, i) && rounds[i].ok
  }

  /** These are the payloads of the passes that send, from pass k on, each once and in order. */
  ghost predicate SentInOrder(rounds: seq<Round>, k: nat, sent: seq<Payload>, at: seq<nat>) {
    && |at| == |sent|
    && (forall n | 0 <= n < |at| :: k <= at[n] < |rounds| && SendsAt(rounds, at[n]))
    && (forall n | 0 <= n < |at| :: rounds[at[n]].payload == Some(sent[n]))
    && (forall m, n | 0 <= m < n < |at| :: at[m] < at[n])
    && (forall i | k <= i < |rounds| && SendsAt(rounds, i) :: i in at)
  }

  /** What the subscriber remembers is what it read last. */
  predicate Remembers(lastSent: Option<Payload>, rounds: seq<Round>, k: nat)
    requires k <= |rounds|
  {
    LastRead(rounds, k) == if lastSent.Some? then Some(lastSent.value.ident) else None
  }

  lemma {:induction false} StreamPlaces(lastSent: Option<Payload>, rounds: seq<Round>, k: nat) returns (at: seq<nat>)
    requires k <= |rounds| && Remembers(lastSent, rounds, k) && forall j | 0 <= j < k :: !ReturnsAt(rounds, j)
    ensures SentInOrder(rounds, k, Stream(lastSent, rounds, k), at)
    decreases |rounds| - k
  {
    at := [];
    if k < |rounds| {
      PassExactly(lastSent, rounds, k);
      var last, rest: seq<Payload> := LastAfter(lastSent, rounds[k]), [];
      if ReturnsAt(rounds, k) {
        NothingAfter(rounds, k);
      } else {
        rest := Stream(last, rounds, k + 1);
        at := StreamPlaces(last, rounds, k + 1);
      }
      StreamNext(lastSent, rounds, k, rest);
      if SendsAt(rounds, k) {
        OneMoreSent(rounds, k, rest, at);
        at := [k] + at;
      } else {
        NoneSent(rounds, k, rest, at);
      }
    }
  }

  lemma StreamNext(lastSent: Option<Payload>, rounds: seq<Round>, k: nat, rest: seq<Payload>)
    requires k < |rounds|
    requires rest == if Leaves(lastSent, rounds[k]) then [] else Stream(LastAfter(lastSent, rounds[k]), rounds, k + 1)
    ensures Stream(lastSent, rounds, k) == SentBy(lastSent, rounds[k]) + rest
    ensures [] + rest == rest
  {
  }

  lemma NoneSent(rounds: seq<Round>, k: nat, rest: seq<Payload>, at: seq<nat>)
    requires k < |rounds| && !SendsAt(rounds, k) && SentInOrder(rounds, k + 1, rest, at)
    ensures SentInOrder(rounds, k, rest, at)
  {
  }

  lemma PassExactly(lastSent: Option<Payload>, rounds: seq<Round>, k: nat)
    requires k < |rounds| && Remembers(lastSent, rounds, k) && forall j | 0 <= j < k :: !ReturnsAt(rounds, j)
    ensures Leaves(lastSent, rounds[k]) <==> ReturnsAt(rounds, k)
    ensures SentBy(lastSent, rounds[k]) == if SendsAt(rounds, k) then [rounds[k].payload.value] else []
    ensures Remembers(LastAfter(lastSent, rounds[k]), rounds, k + 1)
  {
    assert MustSend(lastSent, rounds[k].payload) <==> NewAt(rounds, k);
  }

  lemma NothingAfter(rounds: seq<Round>, k: nat)
    requires k < |rounds| && ReturnsAt(rounds, k)
    ensures SentInOrder(rounds, k + 1, [], [])
  {
  }

  lemma OneMoreSent(rounds: seq<Round>, k: nat, rest: seq<Payload>, at: seq<nat>)
    requires k < |rounds| && SendsAt(rounds, k) && SentInOrder(rounds, k + 1, rest, at)
    ensures SentInOrder(rounds, k, [rounds[k].payload.value] + rest, [k] + at)
  {
    var more := [k] + at;
    forall i | k <= i < |rounds| && SendsAt(rounds, i) ensures i in more {
      if i > k { assert i in at; } else { assert more[0] == i; }
    }
  }

  /** The stream exactly: it sends each payload that is new to it, in the order read, until the handler returns. */
  lemma StreamExactly(rounds: seq<Round>) returns (at: seq<nat>)
    ensures SentInOrder(rounds, 0, Stream(None, rounds, 0), at)
  {
    at := StreamPlaces(None, rounds, 0);
  }

  /** Whatever ends the waits, a stream over reads of ever newer payloads sends each of them at most
      once and in order. */
  lemma {:induction false} StreamIncreases(lastSent: Option<Payload>, rounds: seq<Round>, k: nat)
    requires forall i, j | k <= i < j < |rounds| :: Version(rounds[i].payload) <= Version(rounds[j].payload)
    requires forall i | k <= i < |rounds| :: Version(lastSent) <= Version(rounds[i].payload)
    ensures Increasing(Stream(lastSent, rounds, k))
    ensures forall p | p in Stream(lastSent, rounds, k) :: Version(lastSent) < Version(Some(p))
    decreases |rounds| - k
  {
    if k < |rounds| {
      var last, first := LastAfter(lastSent, rounds[k]), SentBy(lastSent, rounds[k]);
      var rest := OnePass(lastSent, rounds, k, Stream(lastSent, rounds, k));
      if !Leaves(lastSent, rounds[k]) { StreamIncreases(last, rounds, k + 1); }
      FirstIncreases(lastSent, last, first, rest);
    }
  }

  /** Sending what is newer before what is newer still. */
  lemma FirstIncreases(lastSent: Option<Payload>, last: Option<Payload>, first: seq<Payload>, rest: seq<Payload>)
    requires first == [] ==> rest == [] || Version(lastSent) <= Version(last)
    requires first != [] ==> first == [first[0]] && Version(lastSent) < Version(Some(first[0]))
    requires first != [] && rest != [] ==> Version(Some(first[0])) <= Version(last)
    requires Increasing(rest) && forall p | p in rest :: Version(last) < Version(Some(p))
    ensures Increasing(first + rest)
    ensures forall p | p in first + rest :: Version(lastSent) < Version(Some(p))
  {
    forall i | 0 <= i < |rest| ensures Version(last) < Version(Some(rest[i])) { assert rest[i] in rest; }
  }

  // ----- One publisher, any number of subscribers -----

  datatype Phase =
    | AtTop
    | Holding(payload: Option<Payload>, changed: nat)
    | Blocked(channel: nat)
    | Gone

  datatype Subscriber = Subscriber(phase: Phase, lastSent: Option<Payload>, sent: seq<Payload>)

  datatype System = System(hub: Hub, subs: seq<Subscriber>)

  datatype Action =
    | Publish(snapshot: StreamSnapshot)
    | Join
    | Read(who: nat)
    | Deliver(who: nat, ok: bool)
    | Wake(who: nat)
    | Beat(who: nat, ok: bool)
    | Cancel(who: nat)

  const START: System := System(NEW_HUB, [])

  predicate Enabled(s: System, a: Action) {
    match a
    case Publish(_) => s.hub.changed < |s.hub.closed|
    case Join => true
    case Read(i) => i < |s.subs| && s.subs[i].phase.AtTop?
    case Deliver(i, _) => i < |s.subs| && s.subs[i].phase.Holding?
    case Wake(i) => i < |s.subs| && s.subs[i].phase.Blocked? &&
                    s.subs[i].phase.channel < |s.hub.closed| && s.hub.closed[s.subs[i].phase.channel]
    case Beat(i, _) => i < |s.subs| && s.subs[i].phase.Blocked?
    case Cancel(i) => i < |s.subs| && s.subs[i].phase.Blocked?
  }

  function Delivered(u: Subscriber, ok: bool): Subscriber
    requires u.phase.Holding?
  {
    if !MustSend(u.lastSent, u.phase.payload) then u.(phase := Blocked(u.phase.changed))
    else if !ok then u.(phase := Gone)
    else Subscriber(Blocked(u.phase.changed), u.phase.payload, u.sent + [u.phase.payload.value])
  }

  /** The subscriber's own part of a step. */
  function Moved(u: Subscriber, a: Action, hub: Hub): Subscriber
    requires a.Deliver? ==> u.phase.Holding?
  {
    match a
    case Read(_) => u.(phase := Holding(hub.payload, hub.changed))
    case Deliver(_, ok) => Delivered(u, ok)
    case Wake(_) => u.(phase := AtTop)
    case Beat(_, ok) => u.(phase := if ok then AtTop else Gone)
    case Cancel(_) => u.(phase := Gone)
    case _ => u
  }

  function Next(s: System, a: Action): System
    requires Enabled(s, a)
  {
    match a
    case Publish(snapshot) => s.(hub := Published(s.hub, snapshot))
    case Join => s.(subs := s.subs + [Subscriber(AtTop, None, [])])
    case _ => s.(subs := s.subs[a.who := Moved(s.subs[a.who], a, s.hub)])
  }

  predicate IsRun(s: System, run: seq<Action>)
    decreases |run|
  {
    run == [] || (Enabled(s, run[0]) && IsRun(Next(s, run[0]), run[1..]))
  }

  function After(s: System, run: seq<Action>): System
    requires IsRun(s, run)
    decreases |run|
  {
    if run == [] then s else After(Next(s, run[0]), run[1..])
  }

  /** The step that ends a wait in the way the round says. */
  function EventStep(i: nat, event: Event): Action {
    match event
    case Done => Cancel(i)
    case Changed => Wake(i)
    case Heartbeat(ok) => Beat(i, ok)
  }

  /** A subscriber's steps from the top of the loop are one pass of handleEventStream. */
  lemma StepsAreOnePass(u: Subscriber, i: nat, hub: Hub, later: Hub, ok: bool, event: Event)
    requires u.phase.AtTop?
    ensures
      var r := Round(hub.payload, ok, event);
      var held := Moved(u, Read(i), hub);
      var delivered := Moved(held, Deliver(i, ok), later);
      var end := if delivered.phase.Gone? then delivered else Moved(delivered, EventStep(i, event), later);
      && end.sent == u.sent + SentBy(u.lastSent, r)
      && (end.phase.Gone? <==> Leaves(u.lastSent, r))
      && (end.phase.Gone? || end.phase.AtTop?)
      && (!end.phase.Gone? ==> end.lastSent == LastAfter(u.lastSent, r))
  {
  }

  // ----- What every step keeps -----

  /** p is what a subscriber holds that read the hub after v publications. */
  ghost predicate IsVersion(h: Hub, p: Option<Payload>, v: nat) {
    v <= |h.published| && p == (if v == 0 then None else Some(h.published[v - 1]))
  }

  /** The number of publications up to the payload. */
  function Version(p: Option<Payload>): nat {
    if p.None? then 0 else p.value.ident + 1
  }

  ghost predicate Increasing(sent: seq<Payload>) {
    forall i, j | 0 <= i < j < |sent| :: sent[i].ident < sent[j].ident
  }

  ghost predicate ValidSubscriber(h: Hub, u: Subscriber) {
    && u.lastSent == (if u.sent == [] then None else Some(u.sent[|u.sent| - 1]))
    && (forall p | p in u.sent :: p in h.published)
    && Increasing(u.sent)
    && IsVersion(h, u.lastSent, Version(u.lastSent))
    && (u.phase.Holding? ==> IsVersion(h, u.phase.payload, u.phase.changed) && Version(u.lastSent) <= u.phase.changed)
    && (u.phase.Blocked? ==> IsVersion(h, u.lastSent, u.phase.channel))
  }

  ghost predicate Valid(s: System) {
    ValidHub(s.hub) && forall i | 0 <= i < |s.subs| :: ValidSubscriber(s.hub, s.subs[i])
  }

  lemma PublishKeepsSubscriber(h: Hub, snapshot: StreamSnapshot, u: Subscriber)
    requires ValidHub(h) && ValidSubscriber(h, u)
    ensures ValidSubscriber(Published(h, snapshot), u)
  {
    var g := Published(h, snapshot);
    assert forall k | 0 <= k < |h.published| :: g.published[k] == h.published[k];
    assert forall p | p in h.published :: p in g.published;
  }

  lemma PublishKeepsHub(h: Hub, snapshot: StreamSnapshot)
    requires ValidHub(h)
    ensures ValidHub(Published(h, snapshot))
  {
  }

  lemma DeliverKeeps(h: Hub, u: Subscriber, ok: bool)
    requires ValidHub(h) && ValidSubscriber(h, u) && u.phase.Holding?
    ensures ValidSubscriber(h, Delivered(u, ok))
  {
    var p := u.phase.payload;
    if MustSend(u.lastSent, p) && ok {
      assert Version(p) == u.phase.changed;
      assert Version(u.lastSent) < u.phase.changed;
      forall i | 0 <= i < |u.sent| ensures u.sent[i].ident < p.value.ident {
        assert u.sent[i].ident <= u.sent[|u.sent| - 1].ident;
      }
    }
  }

  lemma MoveKeeps(h: Hub, u: Subscriber, a: Action)
    requires ValidHub(h) && ValidSubscriber(h, u)
    requires a.Deliver? ==> u.phase.Holding?
    ensures ValidSubscriber(h, Moved(u, a, h))
  {
    if a.Deliver? { DeliverKeeps(h, u, a.ok); }
  }

  lemma StepKeepsValid(s: System, a: Action)
    requires Valid(s) && Enabled(s, a)
    ensures Valid(Next(s, a))
  {
    match a
    case Publish(snapshot) =>
      PublishKeepsHub(s.hub, snapshot);
      forall i | 0 <= i < |s.subs| ensures ValidSubscriber(Published(s.hub, snapshot), s.subs[i]) {
        PublishKeepsSubscriber(s.hub, snapshot, s.subs[i]);
      }
    case Join =>
    case _ => MoveKeeps(s.hub, s.subs[a.who], a);
  }

  lemma {:induction false} RunKeepsValid(s: System, run: seq<Action>)
    requires Valid(s) && IsRun(s, run)
    ensures Valid(After(s, run))
    decreases |run|
  {
    if run != [] {
      StepKeepsValid(s, run[0]);
      RunKeepsValid(Next(s, run[0]), run[1..]);
    }
  }

  // ----- Results -----

  /** In every run, a subscriber blocked on an unclosed channel has already sent the latest payload
      (or nothing has been published), and one on a closed channel can step. */
  lemma NoLostWakeUp(run: seq<Action>, i: nat)
    requires IsRun(START, run) && i < |After(START, run).subs|
    requires After(START, run).subs[i].phase.Blocked?
    ensures var s := After(START, run); var c := s.subs[i].phase.channel;
      && c < |s.hub.closed|
      && (s.hub.closed[c] <==> Enabled(s, Wake(i)))
      && (!s.hub.closed[c] <==> s.subs[i].lastSent == s.hub.payload)
  {
    RunKeepsValid(START, run);
  }

  /** In every run, what a subscriber sends is published, and its versions strictly increase. */
  lemma SentVersionsIncrease(run: seq<Action>, i: nat)
    requires IsRun(START, run) && i < |After(START, run).subs|
    ensures Increasing(After(START, run).subs[i].sent)
    ensures forall p | p in After(START, run).subs[i].sent :: p in After(START, run).hub.published
  {
    RunKeepsValid(START, run);
  }

  /** The step a subscriber can take by itself, without a heartbeat. */
  function OwnStep(s: System, i: nat): Action
    requires i < |s.subs|
  {
    if s.subs[i].phase.AtTop? then Read(i)
    else if s.subs[i].phase.Holding? then Deliver(i, true)
    else Wake(i)
  }

  ghost predicate CaughtUp(s: System, i: nat)
    requires i < |s.subs|
  {
    s.subs[i].phase.Blocked? && s.subs[i].lastSent == s.hub.payload
  }

  /** The steps a subscriber still needs to send the latest payload. */
  function StepsBehind(s: System, i: nat): nat
    requires i < |s.subs|
  {
    var u := s.subs[i];
    match u.phase
    case AtTop => 2
    case Holding(_, c) => if c == s.hub.changed then 1 else 4
    case Blocked(c) => if c == s.hub.changed then 0 else 3
    case Gone => 0
  }

  lemma OwnStepAdvances(s: System, i: nat)
    requires Valid(s) && i < |s.subs| && !s.subs[i].phase.Gone?
    ensures CaughtUp(s, i) <==> StepsBehind(s, i) == 0
    ensures !CaughtUp(s, i) ==>
      && Enabled(s, OwnStep(s, i))
      && !Next(s, OwnStep(s, i)).subs[i].phase.Gone?
      && StepsBehind(Next(s, OwnStep(s, i)), i) < StepsBehind(s, i) <= 4
  {
    var u := s.subs[i];
    if u.phase.Blocked? && u.phase.channel != s.hub.changed {
      assert s.hub.closed[u.phase.channel];
    }
  }

  /** A live subscriber that has not sent the latest payload is never stuck: without a heartbeat or a
      further publication, at most four steps of its own send it. */
  lemma {:induction false} CatchesUp(s: System, i: nat) returns (run: seq<Action>)
    requires Valid(s) && i < |s.subs| && !s.subs[i].phase.Gone?
    ensures IsRun(s, run) && |run| <= StepsBehind(s, i) <= 4
    ensures forall a | a in run :: a in {Read(i), Deliver(i, true), Wake(i)}
    ensures i < |After(s, run).subs| && CaughtUp(After(s, run), i)
    decreases StepsBehind(s, i)
  {
    OwnStepAdvances(s, i);
    if CaughtUp(s, i) {
      run := [];
    } else {
      var a := OwnStep(s, i);
      StepKeepsValid(s, a);
      var rest := CatchesUp(Next(s, a), i);
      run := [a] + rest;
      assert run[1..] == rest;
    }
  }
}
