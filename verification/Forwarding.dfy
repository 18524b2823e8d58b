/** Forwarding the frames of a data source to its sinks over links that may fail at any time. */
module Forwarding {
  import opened Bytes
  import opened Framing

  const BACKOFF_MS: int := 2000

  datatype SinkKind = Serial | Udp | Usb | Visa | TcpClient | TcpServer

  /** What the outside world does with one sink in one round: whether a connection comes up, whether a
      TCP server still has no peer, and which sends succeed. */
  datatype World = World(connects: bool, awaitingPeer: bool, sends: nat -> bool)

  datatype Event = Attempt(at: int) | Failure(at: int)

  /** A sink link and what has happened to it: the frames offered so far, the positions in them of the
      frames sent, and the connection attempts and failures in order. */
  datatype Sink = Sink(kind: SinkKind, up: bool, nextTry: int,
                       offered: seq<Frame>, sent: seq<nat>, events: seq<Event>)

  // ---- One round for one sink ----

  /** How many frames go out before a send fails. */
  function SentBeforeFailure(w: World, k: nat, n: nat): (r: nat)
    requires k <= n
    ensures k <= r <= n && (r < n ==> !w.sends(r))
    ensures forall j :: k <= j < r ==> w.sends(j)
    decreases n - k
  {
    if k == n || !w.sends(k) then k else SentBeforeFailure(w, k + 1, n)
  }

  function Attempted(sk: Sink, now: int, w: World): Sink {
    var tried := sk.(events := sk.events + [Attempt(now)], up := w.connects);
    if w.connects then tried else Failed(tried, now)
  }

  function Failed(sk: Sink, now: int): Sink {
    sk.(up := false, nextTry := now + BACKOFF_MS, events := sk.events + [Failure(now)])
  }

  function Positions(start: nat, n: nat): (p: seq<nat>)
    ensures |p| == n && forall i :: 0 <= i < n ==> p[i] == start + i
  {
    seq(n, i => start + i)
  }

  /** A batch of frames offered to one sink. */
  function Forwarded(sk: Sink, now: int, frames: seq<Frame>, w: World): Sink {
    var offer := sk.(offered := sk.offered + frames);
    if !sk.up && now < sk.nextTry then offer
    else
      var ready := if sk.up then offer else Attempted(offer, now, w);
      if !ready.up then ready
      else if sk.kind in {TcpClient, TcpServer} && w.awaitingPeer then ready
      else
        var n := SentBeforeFailure(w, 0, |frames|);
        var done := ready.(sent := ready.sent + Positions(|sk.offered|, n));
        if n < |frames| then Failed(done, now) else done
  }

  /** TCP servers listen before there is anything to forward. */
  function KeptAlive(sk: Sink, now: int, w: World): Sink {
    if sk.kind != TcpServer || sk.up || now < sk.nextTry then sk else Attempted(sk, now, w)
  }

  function Stopped(sk: Sink): Sink {
    sk.(up := false)
  }

  class PollWorker {
    var sinks: seq<Sink>

    constructor (kinds: seq<SinkKind>)
      ensures |sinks| == |kinds| && forall i :: 0 <= i < |kinds| ==> sinks[i] == Sink(kinds[i], false, 0, [], [], [])
    {
      sinks := seq(|kinds|, i requires 0 <= i < |kinds| => Sink(kinds[i], false, 0, [], [], []));
    }

    /** Offers a batch to every sink in turn. */
    method ForwardFrames(frames: seq<Frame>, now: int, world: seq<World>)
      requires |world| == |sinks|
      modifies this
      ensures |sinks| == |old(sinks)|
      ensures forall i :: 0 <= i < |sinks| ==> sinks[i] == Forwarded(old(sinks)[i], now, frames, world[i])
    {
      for i := 0 to |sinks|
        invariant |sinks| == |old(sinks)|
        invariant forall j :: 0 <= j < i ==> sinks[j] == Forwarded(old(sinks)[j], now, frames, world[j])
        invariant forall j :: i <= j < |sinks| ==> sinks[j] == old(sinks)[j]
      {
        var sk := ForwardTo(sinks[i], frames, now, world[i]);
        sinks := sinks[i := sk];
      }
    }

    method ForwardTo(sink: Sink, frames: seq<Frame>, now: int, w: World) returns (sk: Sink)
      ensures sk == Forwarded(sink, now, frames, w)
    {
      sk := sink.(offered := sink.offered + frames);
      if !sk.up && now < sk.nextTry {
        return;
      }
      if !sk.up {
        sk := ConnectSink(sk, now, w);
        if !sk.up {
          return;
        }
      }
      if sk.kind in {TcpClient, TcpServer} && w.awaitingPeer {
        return;
      }
      var ok := true;
      var k := 0;
      while k < |frames| && ok
        invariant k <= |frames|
        invariant ok ==> SentBeforeFailure(w, 0, |frames|) == SentBeforeFailure(w, k, |frames|)
        invariant !ok ==> k < |frames| && SentBeforeFailure(w, 0, |frames|) == k
        decreases |frames| - k, ok
      {
        ok := w.sends(k);
        if ok {
          k := k + 1;
        }
      }
      sk := sk.(sent := sk.sent + Positions(|sink.offered|, k));
      if !ok {
        sk := sk.(up := false, nextTry := now + BACKOFF_MS, events := sk.events + [Failure(now)]);
      }
    }

    method ConnectSink(sink: Sink, now: int, w: World) returns (sk: Sink)
      ensures sk == Attempted(sink, now, w)
    {
      sk := sink.(events := sink.events + [Attempt(now)], up := w.connects);
      if !sk.up {
        sk := sk.(nextTry := now + BACKOFF_MS, events := sk.events + [Failure(now)]);
      }
    }

    method KeepAlive(now: int, world: seq<World>)
      requires |world| == |sinks|
      modifies this
      ensures |sinks| == |old(sinks)|
      ensures forall i :: 0 <= i < |sinks| ==> sinks[i] == KeptAlive(old(sinks)[i], now, world[i])
    {
      for i := 0 to |sinks|
        invariant |sinks| == |old(sinks)|
        invariant forall j :: 0 <= j < i ==> sinks[j] == KeptAlive(old(sinks)[j], now, world[j])
        invariant forall j :: i <= j < |sinks| ==> sinks[j] == old(sinks)[j]
      {
        var sk := sinks[i];
        if sk.kind != TcpServer || sk.up || now < sk.nextTry {
          continue;
        }
        sk := ConnectSink(sk, now, world[i]);
        sinks := sinks[i := sk];
      }
    }

    /** The data source is stopped by hand: every link is closed, no failure is recorded. */
    method StopSource()
      modifies this
      ensures |sinks| == |old(sinks)| && forall i :: 0 <= i < |sinks| ==> sinks[i] == Stopped(old(sinks)[i])
    {
      for i := 0 to |sinks|
        invariant |sinks| == |old(sinks)|
        invariant forall j :: 0 <= j < i ==> sinks[j] == Stopped(old(sinks)[j])
        invariant forall j :: i <= j < |sinks| ==> sinks[j] == old(sinks)[j]
      {
        if sinks[i].up {
          sinks := sinks[i := sinks[i].(up := false)];
        }
      }
    }
  }

  // ---- Runs of one sink ----

  datatype Round = Forward(now: int, frames: seq<Frame>, w: World) | KeepAlive(now: int, w: World) | Stop(now: int)

  function After(sk: Sink, r: Round): Sink {
    match r
    case Forward(now, frames, w) => Forwarded(sk, now, frames, w)
    case KeepAlive(now, w) => KeptAlive(sk, now, w)
    case Stop(_) => Stopped(sk)
  }

  function AfterAll(sk: Sink, rounds: seq<Round>): Sink
    decreases |rounds|
  {
    if rounds == [] then sk else AfterAll(After(sk, rounds[0]), rounds[1..])
  }

  /** Each frame offered is sent at most once, and in the order offered. */
  ghost predicate InOrderAtMostOnce(sk: Sink) {
    && (forall i :: 0 <= i < |sk.sent| ==> sk.sent[i] < |sk.offered|)
    && forall i, j :: 0 <= i < j < |sk.sent| ==> sk.sent[i] < sk.sent[j]
  }

  /** After a failure no connection is attempted for two seconds. */
  ghost predicate BacksOff(sk: Sink) {
    && (forall i, j :: 0 <= i < j < |sk.events| && sk.events[i].Failure? && sk.events[j].Attempt? ==>
          sk.events[i].at + 2000 <= sk.events[j].at)
    && forall i :: 0 <= i < |sk.events| && sk.events[i].Failure? ==> sk.events[i].at + 2000 <= sk.nextTry
  }

  /** The clock does not run backwards. */
  ghost predicate Monotone(from: int, rounds: seq<Round>) {
    forall i :: 0 <= i < |rounds| ==>
      from <= rounds[i].now && forall j :: i <= j < |rounds| ==> rounds[i].now <= rounds[j].now
  }

  /** Nothing in the record lies in the future. */
  ghost predicate Past(sk: Sink, now: int) {
    forall i :: 0 <= i < |sk.events| ==> sk.events[i].at <= now
  }

  lemma {:induction false} AttemptKeeps(sk: Sink, now: int, w: World)
    requires BacksOff(sk) && Past(sk, now) && sk.nextTry <= now
    ensures BacksOff(Attempted(sk, now, w)) && Past(Attempted(sk, now, w), now)
  {
  }

  lemma {:induction false} FailureKeeps(sk: Sink, now: int)
    requires BacksOff(sk) && Past(sk, now)
    ensures BacksOff(Failed(sk, now)) && Past(Failed(sk, now), now)
  {
  }

  lemma {:induction false} SendKeeps(sk: Sink, frames: seq<Frame>, n: nat)
    requires InOrderAtMostOnce(sk) && n <= |frames|
    ensures InOrderAtMostOnce(sk.(offered := sk.offered + frames, sent := sk.sent + Positions(|sk.offered|, n)))
    ensures InOrderAtMostOnce(sk.(offered := sk.offered + frames))
  {
  }

  /** The sink has the same record of attempts and failures, and would try again at the same time. */
  predicate SameLink(sk: Sink, sk': Sink) {
    sk'.events == sk.events && sk'.nextTry == sk.nextTry
  }

  lemma {:induction false} SameLinkKeeps(sk: Sink, sk': Sink, now: int)
    requires SameLink(sk, sk') && BacksOff(sk) && Past(sk, now)
    ensures BacksOff(sk') && Past(sk', now)
  {
  }

  lemma {:induction false} ForwardKeeps(sk: Sink, now: int, frames: seq<Frame>, w: World)
    requires InOrderAtMostOnce(sk) && BacksOff(sk) && Past(sk, now)
    ensures var sk' := Forwarded(sk, now, frames, w); InOrderAtMostOnce(sk') && BacksOff(sk') && Past(sk', now)
  {
    hide BacksOff, Past, InOrderAtMostOnce;
    var offer := sk.(offered := sk.offered + frames);
    var n := SentBeforeFailure(w, 0, |frames|);
    SendKeeps(sk, frames, 0);
    SendKeeps(sk, frames, n);
    SameLinkKeeps(sk, offer, now);
    if sk.up || now >= sk.nextTry {
      var ready := if sk.up then offer else Attempted(offer, now, w);
      if !sk.up {
        AttemptKeeps(offer, now, w);
      }
      var done := ready.(sent := ready.sent + Positions(|sk.offered|, n));
      SameLinkKeeps(ready, done, now);
      FailureKeeps(done, now);
      OrderIgnoresLink(offer, ready);
      OrderIgnoresLink(sk.(offered := sk.offered + frames, sent := sk.sent + Positions(|sk.offered|, n)), done);
      OrderIgnoresLink(done, Failed(done, now));
    }
  }

  lemma {:induction false} OrderIgnoresLink(sk: Sink, sk': Sink)
    requires InOrderAtMostOnce(sk) && sk'.sent == sk.sent && sk'.offered == sk.offered
    ensures InOrderAtMostOnce(sk')
  {
  }

  lemma {:induction false} RoundKeeps(sk: Sink, r: Round)
    requires InOrderAtMostOnce(sk) && BacksOff(sk) && Past(sk, r.now)
    ensures InOrderAtMostOnce(After(sk, r)) && BacksOff(After(sk, r)) && Past(After(sk, r), r.now)
  {
    hide BacksOff, Past, InOrderAtMostOnce, Forwarded;
    match r
    case Forward(now, frames, w) => ForwardKeeps(sk, now, frames, w);
    case KeepAlive(now, w) =>
      OrderIgnoresLink(sk, Attempted(sk, now, w));
      if now >= sk.nextTry {
        AttemptKeeps(sk, now, w);
      }
    case Stop(now) =>
      OrderIgnoresLink(sk, Stopped(sk));
      SameLinkKeeps(sk, Stopped(sk), now);
  }

  function FramesOffered(rounds: seq<Round>): seq<Frame> {
    if rounds == [] then []
    else (if rounds[0].Forward? then rounds[0].frames else []) + FramesOffered(rounds[1..])
  }

  lemma {:induction false} Later(sk: Sink, now: int, then_: int)
    requires Past(sk, now) && now <= then_
    ensures Past(sk, then_)
  {
  }

  lemma {:induction false} MonotoneTail(from: int, rounds: seq<Round>)
    requires Monotone(from, rounds) && rounds != []
    ensures from <= rounds[0].now && Monotone(rounds[0].now, rounds[1..])
  {
  }

  /** Whatever the links do: each sink is sent frames of the source in their order, each at most once,
      and after a failure is left alone for two seconds. */
  lemma {:induction false} ForwardingLaws(sk: Sink, rounds: seq<Round>, from: int)
    requires InOrderAtMostOnce(sk) && BacksOff(sk) && Past(sk, from) && Monotone(from, rounds)
    ensures InOrderAtMostOnce(AfterAll(sk, rounds)) && BacksOff(AfterAll(sk, rounds))
    decreases |rounds|
  {
    hide BacksOff, Past, InOrderAtMostOnce, Monotone, After;
    if rounds != [] {
      var r := rounds[0];
      MonotoneTail(from, rounds);
      Later(sk, from, r.now);
      RoundKeeps(sk, r);
      ForwardingLaws(After(sk, r), rounds[1..], r.now);
    }
  }

  /** What has been offered to a sink is the stream of frames of the source. */
  lemma {:induction false} OfferedIsStream(sk: Sink, rounds: seq<Round>)
    ensures AfterAll(sk, rounds).offered == sk.offered + FramesOffered(rounds)
    decreases |rounds|
  {
    hide After;
    if rounds == [] {
      assert sk.offered + [] == sk.offered;
    } else {
      var r := rounds[0];
      var first := if r.Forward? then r.frames else [];
      RoundOffers(sk, r);
      OfferedIsStream(After(sk, r), rounds[1..]);
      assert sk.offered + first + FramesOffered(rounds[1..]) == sk.offered + (first + FramesOffered(rounds[1..]));
    }
  }

  lemma {:induction false} RoundOffers(sk: Sink, r: Round)
    ensures After(sk, r).offered == sk.offered + if r.Forward? then r.frames else []
  {
    hide SentBeforeFailure, Positions;
    assert sk.offered + [] == sk.offered;
  }

  /** The round brings a sink of this kind no failure: there is a peer, and every send succeeds. */
  ghost predicate Healthy(kind: SinkKind, r: Round) {
    match r
    case Forward(_, frames, w) =>
      !(kind in {TcpClient, TcpServer} && w.awaitingPeer) && forall k: nat :: k < |frames| ==> w.sends(k)
    case KeepAlive(_, _) => true
    case Stop(_) => false
  }

  lemma {:induction false} HealthyRound(sk: Sink, r: Round)
    requires sk.up && Healthy(sk.kind, r)
    ensures var n := if r.Forward? then |r.frames| else 0;
            && After(sk, r).up && After(sk, r).kind == sk.kind
            && After(sk, r).sent == sk.sent + Positions(|sk.offered|, n)
            && |After(sk, r).offered| == |sk.offered| + n
  {
    hide Positions;
    NoPositions(|sk.offered|);
    if r.Forward? {
      var n := SentBeforeFailure(r.w, 0, |r.frames|);
      assert n == |r.frames|;
    }
  }

  lemma {:induction false} NoPositions(start: nat)
    ensures Positions(start, 0) == []
  {
  }

  lemma {:induction false} PositionsJoin(sent: seq<nat>, start: nat, m: nat, n: nat)
    ensures sent + Positions(start, m) + Positions(start + m, n) == sent + Positions(start, m + n)
  {
    assert Positions(start, m + n) == Positions(start, m) + Positions(start + m, n);
  }

  /** A sink that is up, has a peer and never fails is sent every frame. */
  lemma {:induction false} HealthySinkGetsAll(sk: Sink, rounds: seq<Round>)
    requires sk.up && forall r :: r in rounds ==> Healthy(sk.kind, r)
    ensures var sk' := AfterAll(sk, rounds);
            sk'.up && sk'.sent == sk.sent + Positions(|sk.offered|, |FramesOffered(rounds)|)
    decreases |rounds|
  {
    hide Positions, After, Healthy;
    if rounds == [] {
      NoPositions(|sk.offered|);
    } else {
      var r := rounds[0];
      var n := if r.Forward? then |r.frames| else 0;
      HealthyRound(sk, r);
      HealthySinkGetsAll(After(sk, r), rounds[1..]);
      PositionsJoin(sk.sent, |sk.offered|, n, |FramesOffered(rounds[1..])|);
    }
  }

  // ---- What a round does, spelled out ----

  /** The first n frames of a batch went out, and if there are more, the next one did not. */
  predicate GoesOut(w: World, frames: seq<Frame>, n: nat) {
    n <= |frames| && (forall k: nat :: k < n ==> w.sends(k)) && (n < |frames| ==> !w.sends(n))
  }

  lemma {:induction false} HowManyGoOut(w: World, frames: seq<Frame>)
    ensures forall n: nat :: GoesOut(w, frames, n) <==> n == SentBeforeFailure(w, 0, |frames|)
  {
  }

  /** A batch is dropped by a sink that is down before its deadline. Past it a sink that is down tries to connect:
      if that fails, the batch is dropped and the next try is two seconds later. A sink that is up then sends frame
      after frame until one fails, which takes it down for two seconds; a TCP link without a peer sends nothing and
      stays up. */
  lemma {:induction false} ForwardOutcome(sk: Sink, now: int, frames: seq<Frame>, w: World, n: nat)
    requires GoesOut(w, frames, n)
    ensures var all, tries := sk.offered + frames, if sk.up then [] else [Attempt(now)];
            var sent := seq(n, i => |sk.offered| + i);
            Forwarded(sk, now, frames, w) ==
              if !sk.up && now < sk.nextTry then Sink(sk.kind, false, sk.nextTry, all, sk.sent, sk.events)
              else if !sk.up && !w.connects then
                Sink(sk.kind, false, now + 2000, all, sk.sent, sk.events + [Attempt(now), Failure(now)])
              else if (sk.kind == TcpClient || sk.kind == TcpServer) && w.awaitingPeer then
                Sink(sk.kind, true, sk.nextTry, all, sk.sent, sk.events + tries)
              else if n == |frames| then Sink(sk.kind, true, sk.nextTry, all, sk.sent + sent, sk.events + tries)
              else Sink(sk.kind, false, now + 2000, all, sk.sent + sent, sk.events + tries + [Failure(now)])
  {
    HowManyGoOut(w, frames);
    assert sk.events + [] == sk.events;
    assert sk.events + [Attempt(now)] + [Failure(now)] == sk.events + [Attempt(now), Failure(now)];
    assert Positions(|sk.offered|, n) == seq(n, i => |sk.offered| + i);
  }

  /** Only a TCP server that is down and past its deadline tries to listen before there is anything to send. */
  lemma {:induction false} KeepAliveOutcome(sk: Sink, now: int, w: World)
    ensures KeptAlive(sk, now, w) ==
              if sk.kind == TcpServer && !sk.up && now >= sk.nextTry then
                if w.connects then Sink(sk.kind, true, sk.nextTry, sk.offered, sk.sent, sk.events + [Attempt(now)])
                else Sink(sk.kind, false, now + 2000, sk.offered, sk.sent, sk.events + [Attempt(now), Failure(now)])
              else sk
    ensures Stopped(sk) == Sink(sk.kind, false, sk.nextTry, sk.offered, sk.sent, sk.events)
  {
    assert sk.events + [Attempt(now)] + [Failure(now)] == sk.events + [Attempt(now), Failure(now)];
  }

  // ---- A sink that is down comes back ----

  /** The deadline of a sink: two seconds after its last failure, or as it was at first. */
  ghost predicate DeadlineIs(sk: Sink, first: int, from: nat)
    requires from <= |sk.events|
  {
    && (forall k :: from <= k < |sk.events| && sk.events[k].Failure? &&
                    (forall j :: k < j < |sk.events| ==> sk.events[j].Attempt?) ==>
          sk.nextTry == sk.events[k].at + 2000)
    && ((forall k :: from <= k < |sk.events| ==> sk.events[k].Attempt?) ==> sk.nextTry == first)
  }

  lemma {:induction false} AttemptKeepsDeadline(sk: Sink, sk': Sink, now: int, first: int, from: nat)
    requires from <= |sk.events| && DeadlineIs(sk, first, from)
    requires sk'.nextTry == sk.nextTry && sk'.events == sk.events + [Attempt(now)]
    ensures DeadlineIs(sk', first, from)
  {
    forall k | from <= k < |sk'.events| && sk'.events[k].Failure? &&
               (forall j :: k < j < |sk'.events| ==> sk'.events[j].Attempt?)
      ensures sk'.nextTry == sk'.events[k].at + 2000
    {
      forall j | k < j < |sk.events|
        ensures sk.events[j].Attempt?
      {
        assert sk'.events[j].Attempt?;
      }
      assert sk.events[k].Failure?;
    }
    if forall k :: from <= k < |sk'.events| ==> sk'.events[k].Attempt? {
      forall k | from <= k < |sk.events|
        ensures sk.events[k].Attempt?
      {
        assert sk'.events[k].Attempt?;
      }
    }
  }

  lemma {:induction false} FailureSetsDeadline(sk: Sink, first: int, from: nat)
    requires from < |sk.events|
    requires var last := sk.events[|sk.events| - 1]; last.Failure? && sk.nextTry == last.at + 2000
    ensures DeadlineIs(sk, first, from)
  {
    var n := |sk.events| - 1;
    assert sk.events[n].Failure?;
  }

  lemma {:induction false} RoundKeepsDeadline(sk: Sink, r: Round, first: int, from: nat)
    requires from <= |sk.events| && DeadlineIs(sk, first, from)
    ensures |sk.events| <= |After(sk, r).events| && DeadlineIs(After(sk, r), first, from)
  {
    hide DeadlineIs, Forwarded, KeptAlive;
    var sk' := After(sk, r);
    var tried := sk.(events := sk.events + [Attempt(r.now)]);
    AttemptKeepsDeadline(sk, tried, r.now, first, from);
    if r.Forward? {
      ForwardOutcome(sk, r.now, r.frames, r.w, SentBeforeFailure(r.w, 0, |r.frames|));
    } else if r.KeepAlive? {
      KeepAliveOutcome(sk, r.now, r.w);
    }
    if sk'.events == sk.events || sk'.events == tried.events {
      SameDeadline(if sk'.events == sk.events then sk else tried, sk', first, from);
    } else {
      FailureSetsDeadline(sk', first, from);
    }
  }

  lemma {:induction false} SameDeadline(sk: Sink, sk': Sink, first: int, from: nat)
    requires from <= |sk.events| && DeadlineIs(sk, first, from) && SameLink(sk, sk')
    ensures DeadlineIs(sk', first, from)
  {
  }

  /** Over every run: nothing but a failure moves the deadline, and it moves it to exactly two seconds later. */
  lemma {:induction false} DeadlineIsLastFailure(sk: Sink, rounds: seq<Round>, first: int, from: nat)
    requires from <= |sk.events| && DeadlineIs(sk, first, from)
    ensures from <= |AfterAll(sk, rounds).events| && DeadlineIs(AfterAll(sk, rounds), first, from)
    decreases |rounds|
  {
    hide After, DeadlineIs;
    if rounds != [] {
      RoundKeepsDeadline(sk, rounds[0], first, from);
      DeadlineIsLastFailure(After(sk, rounds[0]), rounds[1..], first, from);
    }
  }

  /** In this round connections come up, there is a peer, and every send succeeds. */
  ghost predicate Working(kind: SinkKind, r: Round) {
    !r.Stop? && r.w.connects && Healthy(kind, r)
  }

  /** The round brings up a sink of this kind: a batch does for every kind, keep-alive for TCP servers only. */
  predicate BringsUp(kind: SinkKind, r: Round) {
    r.Forward? || (r.KeepAlive? && kind == TcpServer)
  }

  lemma {:induction false} WorkingRound(sk: Sink, r: Round)
    requires !sk.up && Working(sk.kind, r) && sk.nextTry <= r.now
    ensures var sk', n := After(sk, r), if r.Forward? then |r.frames| else 0;
            && sk'.kind == sk.kind && sk'.up == BringsUp(sk.kind, r) && sk'.nextTry == sk.nextTry
            && sk'.sent == sk.sent + Positions(|sk.offered|, n) && |sk'.offered| == |sk.offered| + n
            && sk'.events == sk.events + if BringsUp(sk.kind, r) then [Attempt(r.now)] else []
  {
    hide Forwarded, KeptAlive;
    NoPositions(|sk.offered|);
    if r.Forward? {
      ForwardOutcome(sk, r.now, r.frames, r.w, |r.frames|);
      assert Positions(|sk.offered|, |r.frames|) == seq(|r.frames|, i => |sk.offered| + i);
    } else {
      KeepAliveOutcome(sk, r.now, r.w);
    }
  }

  ghost predicate AllWorking(kind: SinkKind, rounds: seq<Round>) {
    forall i :: 0 <= i < |rounds| ==> Working(kind, rounds[i])
  }

  /** From its deadline on, in working rounds, a sink that is down is sent every frame from the first batch on; it
      is up from the first round on that brings it up. */
  lemma {:induction false} DownSinkGetsAll(sk: Sink, rounds: seq<Round>)
    requires !sk.up && Monotone(sk.nextTry, rounds) && AllWorking(sk.kind, rounds)
    ensures var sk' := AfterAll(sk, rounds);
            && sk'.sent == sk.sent + Positions(|sk.offered|, |FramesOffered(rounds)|)
            && sk'.up == SomeBringsUp(sk.kind, rounds)
    decreases |rounds|
  {
    hide Positions, After, Working, Monotone, BringsUp, FramesOffered, Healthy;
    OfferedUnfolds(rounds);
    if rounds == [] {
      NoPositions(|sk.offered|);
    } else {
      var r, rest := rounds[0], rounds[1..];
      var n := if r.Forward? then |r.frames| else 0;
      MonotoneTail(sk.nextTry, rounds);
      WorkingRound(sk, r);
      if BringsUp(sk.kind, r) {
        WorkingIsHealthy(sk.kind, rest);
        HealthySinkGetsAll(After(sk, r), rest);
      } else {
        MonotoneEarlier(sk.nextTry, r.now, rest);
        DownSinkGetsAll(After(sk, r), rest);
      }
      PositionsJoin(sk.sent, |sk.offered|, n, |FramesOffered(rest)|);
    }
  }

  lemma {:induction false} OfferedUnfolds(rounds: seq<Round>)
    ensures |FramesOffered(rounds)|
         == if rounds == [] then 0
            else (if rounds[0].Forward? then |rounds[0].frames| else 0) + |FramesOffered(rounds[1..])|
  {
  }

  predicate SomeBringsUp(kind: SinkKind, rounds: seq<Round>) {
    rounds != [] && (BringsUp(kind, rounds[0]) || SomeBringsUp(kind, rounds[1..]))
  }

  lemma {:induction false} WorkingIsHealthy(kind: SinkKind, rounds: seq<Round>)
    requires AllWorking(kind, rounds)
    ensures forall r :: r in rounds ==> Healthy(kind, r)
  {
    hide Healthy;
  }

  lemma {:induction false} MonotoneEarlier(from: int, now: int, rounds: seq<Round>)
    requires Monotone(now, rounds) && from <= now
    ensures Monotone(from, rounds)
  {
  }

  lemma {:induction false} AfterAllJoins(sk: Sink, before: seq<Round>, rounds: seq<Round>)
    ensures AfterAll(sk, before + rounds) == AfterAll(AfterAll(sk, before), rounds)
    decreases |before|
  {
    hide After;
    if before == [] {
      assert before + rounds == rounds;
    } else {
      assert (before + rounds)[1..] == before[1..] + rounds;
      AfterAllJoins(After(sk, before[0]), before[1..], rounds);
    }
  }

  /** Whatever has happened to a sink before: once its deadline has passed and connections work, every frame
      offered from then on is sent to it, whether it is up or down by then. */
  lemma {:induction false} EverySinkRecovers(sk: Sink, before: seq<Round>, rounds: seq<Round>)
    requires Monotone(AfterAll(sk, before).nextTry, rounds)
    requires AllWorking(sk.kind, rounds)
    ensures AfterAll(sk, before + rounds).sent
         == AfterAll(sk, before).sent
            + Positions(|sk.offered| + |FramesOffered(before)|, |FramesOffered(rounds)|)
  {
    hide Positions, Working, Monotone;
    var now := AfterAll(sk, before);
    AfterAllJoins(sk, before, rounds);
    OfferedIsStream(sk, before);
    SameKind(sk, before);
    if now.up {
      WorkingIsHealthy(sk.kind, rounds);
      HealthySinkGetsAll(now, rounds);
    } else {
      DownSinkGetsAll(now, rounds);
    }
  }

  lemma {:induction false} SameKind(sk: Sink, rounds: seq<Round>)
    ensures AfterAll(sk, rounds).kind == sk.kind
    decreases |rounds|
  {
    if rounds != [] {
      SameKind(After(sk, rounds[0]), rounds[1..]);
    }
  }
}
