/** The event publisher: any number of publishers append to a queue, and one thread takes the whole queue,
    hands it to the databases entry by entry outside the lock, and puts back at the head what it could not
    hand over.  A step of `Next` is what one lock region, or one entry of the list being processed, does; runs
    interleave them freely. */
module EventQueue {
  import opened Bytes

  type Addr = string

  const DEFAULT_ADDR: Addr := "127.0.0.1:6379"

  /** An event, with the sequence numbers that were stamped on it. */
  datatype Event = Event(id: nat, stamps: seq<nat>)

  /** A queue entry; its event is gone once it was sent or dropped. */
  datatype Entry = Entry(addr: Addr, event: Option<Event>)

  /** What became of an event. */
  datatype Outcome = Sent(id: nat, addr: Addr, stamps: seq<nat>) | Dropped(id: nat)

  /** What happens on connections: one is leased, carries events with their numbers, and is given back.  Before that the
      events are flushed, and then the replies are read; if they cannot be flushed the connection is opened anew and
      no reply is read. */
  datatype Wire = Lease(addr: Addr) | Send(id: nat, number: nat) | Release(addr: Addr, read: nat, flushed: bool)

  /** What goes well when one entry is handled: the connection in use is flushed, another one can be had, it takes the
      event, and if not, it is flushed. */
  datatype Luck = Luck(flushed: bool, got: bool, sent: bool, flushedLast: bool)

  datatype Drain =
    | Idle
    | Busy(list: seq<Entry>, at: nat, lease: Option<Addr>, sent: nat)
    | Halted(list: seq<Entry>)

  /** `accepted` is the address each accepted event is for, `log` what became of the events handled so far. */
  datatype State = State(events: seq<Entry>, drain: Drain, pushed: nat,
                         accepted: seq<Addr>, log: seq<Outcome>, wire: seq<Wire>)

  datatype Limits = Limits(max: nat, redline: nat)

  const INIT: State := State([], Idle, 0, [], [], [])

  function Target(a: Addr): Addr {
    if a == "" then DEFAULT_ADDR else a
  }

  // ---- steps ----

  /** A full queue makes the call fail: the code that is to wait leaves its loop instead. */
  function Publish(l: Limits, s: State, addr: Addr): (State, bool) {
    if |s.events| > l.max then (s, false)
    else
      (s.(events := s.events + [Entry(addr, Some(Event(|s.accepted|, [])))], accepted := s.accepted + [addr]), true)
  }

  function Take(s: State): State
    requires s.drain.Idle?
  {
    if s.events == [] then s else s.(events := [], drain := Busy(s.events, 0, None, 0))
  }

  /** The connection in use, if any, is given back. */
  function GiveBack(w: seq<Wire>, lease: Option<Addr>, sent: nat, flushed: bool): seq<Wire> {
    if lease.None? then w else w + [Release(lease.value, if flushed then sent else 0, flushed)]
  }

  /** One entry of the list. */
  function One(s: State, luck: Luck): State
    requires s.drain.Busy? && s.drain.at < |s.drain.list|
  {
    var Busy(list, at, lease, sent) := s.drain;
    var Entry(a, ev) := list[at];
    if ev.None? then s.(drain := Busy(list, at + 1, lease, sent))
    else
      var target := Target(a);
      var change := lease != Some(target);
      var wire := if change then GiveBack(s.wire, lease, sent, luck.flushed) else s.wire;
      if change && !luck.got then
        s.(drain := Halted(list[at := Entry(a, None)]), log := s.log + [Dropped(ev.value.id)],
           wire := wire)
      else
        var n := if change then 0 else sent;
        var wire' := if change then wire + [Lease(target)] else wire;
        var e := Event(ev.value.id, ev.value.stamps + [s.pushed]);
        if !luck.sent then
          s.(drain := Halted(list[at := Entry(a, Some(e))]), wire := GiveBack(wire', Some(target), n, luck.flushedLast))
        else
          s.(drain := Busy(list[at := Entry(a, None)], at + 1, Some(target), n + 1), pushed := s.pushed + 1,
             log := s.log + [Sent(e.id, target, e.stamps)], wire := wire' + [Send(e.id, s.pushed)])
  }

  function Finish(s: State, flushed: bool): State
    requires s.drain.Busy?
  {
    s.(drain := Idle, wire := GiveBack(s.wire, s.drain.lease, s.drain.sent, flushed))
  }

  /** Meant to cut a list down to `limit` entries; it removes the last `limit` of them. */
  function Limit(list: seq<Entry>, limit: nat): seq<Entry> {
    if |list| > limit then list[..|list| - limit] else list
  }

  function Trim(l: Limits, list: seq<Entry>, events: seq<Entry>): (seq<Entry>, seq<Entry>) {
    if |events| > l.redline then
      var list' := Limit(list, l.max);
      (list', Limit(events, (l.max - |list'|) % U64))
    else (list, events)
  }

  function Requeue(l: Limits, s: State): State
    requires s.drain.Halted?
  {
    var (list, events) := Trim(l, s.drain.list, s.events);
    s.(events := list + events, drain := Idle)
  }

  datatype Step = PublishStep(addr: Addr) | TakeStep | OneStep(luck: Luck) | FinishStep(flushed: bool) | RequeueStep

  predicate Enabled(s: State, t: Step) {
    match t
    case PublishStep(_) => true
    case TakeStep => s.drain.Idle?
    case OneStep(_) => s.drain.Busy? && s.drain.at < |s.drain.list|
    case FinishStep(_) => s.drain.Busy? && s.drain.at == |s.drain.list|
    case RequeueStep => s.drain.Halted?
  }

  function Next(l: Limits, s: State, t: Step): State
    requires Enabled(s, t)
  {
    match t
    case PublishStep(a) => Publish(l, s, a).0
    case TakeStep => Take(s)
    case OneStep(luck) => One(s, luck)
    case FinishStep(flushed) => Finish(s, flushed)
    case RequeueStep => Requeue(l, s)
  }

  /** The state after running the steps in order, if each is enabled when its turn comes. */
  function Run(l: Limits, ts: seq<Step>): Option<State> {
    if ts == [] then Some(INIT)
    else
      var n := |ts| - 1;
      match Run(l, ts[..n])
      case Some(r) => if Enabled(r, ts[n]) then Some(Next(l, r, ts[n])) else None
      case None => None
  }

  // ---- what every run keeps ----

  /** The events still to be handled, oldest first. */
  function Live(list: seq<Entry>): seq<Entry> {
    if list == [] then []
    else if list[0].event.None? then Live(list[1..])
    else [list[0]] + Live(list[1..])
  }

  function Held(d: Drain): seq<Entry> {
    if d.Idle? then [] else d.list
  }

  function Waiting(s: State): seq<Entry> {
    Live(Held(s.drain)) + Live(s.events)
  }

  /** How many of the handled events were sent. */
  function SentCount(log: seq<Outcome>): nat {
    if log == [] then 0 else SentCount(log[..|log| - 1]) + if log[|log| - 1].Sent? then 1 else 0
  }

  /** Every event sent carries its position among the events sent, and no other number. */
  predicate Numbered(log: seq<Outcome>) {
    log == [] ||
    (var n := |log| - 1;
     && Numbered(log[..n])
     && (log[n].Sent? ==>
           log[n].stamps != [] && forall x | x in log[n].stamps :: x == SentCount(log[..n])))
  }

  /** Replaying the wire: which connection is out, and how many replies it owes. */
  datatype Account = Free | Out(addr: Addr, owed: nat) | Wrong

  function Replay(w: seq<Wire>): Account {
    if w == [] then Free
    else
      var before := Replay(w[..|w| - 1]);
      match w[|w| - 1]
      case Lease(a) => if before.Free? then Out(a, 0) else Wrong
      case Send(_, _) => if before.Out? then Out(before.addr, before.owed + 1) else Wrong
      case Release(a, n, flushed) =>
        if before.Out? && before.addr == a && n == (if flushed then before.owed else 0) then Free else Wrong
  }

  /** An event as it goes out: on which connection, and with which number. */
  datatype Delivery = Delivery(addr: Addr, id: nat, number: nat)

  /** All that went out on leased connections, in order. */
  function Deliveries(w: seq<Wire>): seq<Delivery> {
    if w == [] then []
    else
      var n := |w| - 1;
      var before := Replay(w[..n]);
      Deliveries(w[..n]) + if w[n].Send? && before.Out? then [Delivery(before.addr, w[n].id, w[n].number)] else []
  }

  /** What should have gone out: each event that was sent, numbered by its position among them. */
  function Sendings(log: seq<Outcome>): seq<Delivery> {
    if log == [] then []
    else
      var n := |log| - 1;
      Sendings(log[..n]) + if log[n].Sent? then [Delivery(log[n].addr, log[n].id, SentCount(log[..n]))] else []
  }

  function OnLease(d: Drain): Account {
    if d.Busy? && d.lease.Some? then Out(d.lease.value, d.sent) else Free
  }

  /** The first event that can still be waiting: the one behind the last handled. */
  function Floor(log: seq<Outcome>): nat {
    if log == [] then 0 else log[|log| - 1].id + 1
  }

  /** The waiting events `w` are accepted ones from the `n`th on, in order, with their addresses; only the oldest can
      have been stamped, with the number it will get. */
  ghost predicate Ordered(w: seq<Entry>, accepted: seq<Addr>, n: nat, pushed: nat) {
    && n <= |accepted|
    && (forall i | 0 <= i < |w| ::
          && w[i].event.Some? && n <= w[i].event.value.id < |accepted| && w[i].addr == accepted[w[i].event.value.id]
          && (i > 0 ==> w[i].event.value.stamps == []))
    && (forall i, j | 0 <= i < j < |w| :: w[i].event.value.id < w[j].event.value.id)
    && (w != [] ==> forall x | x in w[0].event.value.stamps :: x == pushed)
  }

  ghost predicate InOrder(s: State) {
    Ordered(Waiting(s), s.accepted, Floor(s.log), s.pushed)
  }

  /** The events handled are accepted ones, in order, and were sent where they were to go. */
  ghost predicate Handled(log: seq<Outcome>, accepted: seq<Addr>) {
    && (forall i | 0 <= i < |log| ::
          log[i].id < |accepted| && (log[i].Sent? ==> log[i].addr == Target(accepted[log[i].id])))
    && (forall i, j | 0 <= i < j < |log| :: log[i].id < log[j].id)
  }

  ghost predicate Recorded(s: State) {
    Handled(s.log, s.accepted) && s.pushed == SentCount(s.log) && Numbered(s.log)
  }

  ghost predicate Accounted(s: State) {
    Replay(s.wire) == OnLease(s.drain) && Deliveries(s.wire) == Sendings(s.log)
  }

  ghost predicate Inv(l: Limits, s: State) {
    && InOrder(s)
    && Recorded(s)
    && Accounted(s)
    && (s.drain.Busy? ==> s.drain.at <= |s.drain.list| && Live(s.drain.list[..s.drain.at]) == [])
    && (!s.drain.Idle? ==> |s.events| <= l.max + 1)
  }

  // ---- what holds in every run ----

  /** Whatever the interleaving, whichever connections fail, and trimmed or not. */
  lemma {:induction false} RunKeeps(l: Limits, ts: seq<Step>)
    requires Run(l, ts).Some?
    ensures Inv(l, Run(l, ts).value)
  {
    hide Inv;
    if ts != [] {
      var n := |ts| - 1;
      RunKeeps(l, ts[..n]);
      var r := Run(l, ts[..n]).value;
      match ts[n]
      case PublishStep(a) => PublishKeeps(l, r, a);
      case TakeStep => TakeKeeps(l, r);
      case OneStep(luck) => OneKeeps(l, r, luck);
      case FinishStep(flushed) => FinishKeeps(l, r, flushed);
      case RequeueStep => RequeueKeeps(l, r);
    } else {
      InvStart(l);
    }
  }

  /** What goes out on connections is exactly what was recorded as sent.  So each event is handed over at most once,
      in the order accepted, on a connection to its own address, and the numbers count up from zero. */
  lemma DeliveredOnce(l: Limits, ts: seq<Step>)
    requires Run(l, ts).Some?
    ensures var s := Run(l, ts).value; var out := Deliveries(s.wire);
            && out == Sendings(s.log) && |out| == SentCount(s.log)
            && (forall i, j | 0 <= i < j < |out| :: out[i].id < out[j].id)
            && (forall i | 0 <= i < |out| ::
                  out[i].number == i && out[i].id < |s.accepted| && out[i].addr == Target(s.accepted[out[i].id]))
  {
    hide Run, Replay, Deliveries, Sendings, SentCount, Numbered, Ordered, Handled;
    RunKeeps(l, ts);
    SendingsInOrder(Run(l, ts).value.log, Run(l, ts).value.accepted);
  }

  /** A sent event carries its position among the events sent, and one that was tried before carries the same number
      from every attempt. */
  lemma NumbersConsecutive(l: Limits, ts: seq<Step>, i: nat)
    requires Run(l, ts).Some?
    requires i < |Run(l, ts).value.log| && Run(l, ts).value.log[i].Sent?
    ensures var log := Run(l, ts).value.log;
            log[i].stamps != [] && forall x | x in log[i].stamps :: x == SentCount(log[..i])
  {
    RunKeeps(l, ts);
    NumberAt(Run(l, ts).value.log, i);
  }

  /** Every connection is given back under the address it was leased for; after as many replies as it owes if it was
      flushed, and otherwise it owes none, being a new one; and none is out while the thread is not busy. */
  lemma LeasesBalance(l: Limits, ts: seq<Step>)
    requires Run(l, ts).Some?
    ensures var s := Run(l, ts).value;
            Replay(s.wire) != Wrong && (!s.drain.Busy? ==> Replay(s.wire) == Free)
  {
    RunKeeps(l, ts);
  }

  // ---- runs that do not trim ----

  /** No step of the run puts its list back through the trim. */
  predicate NeverTrims(l: Limits, ts: seq<Step>) {
    ts == [] ||
    (var n := |ts| - 1; var r := Run(l, ts[..n]);
     && NeverTrims(l, ts[..n])
     && (ts[n].RequeueStep? && r.Some? && r.value.drain.Halted? ==> |r.value.events| <= l.redline))
  }

  /** No accepted event is lost or handled twice: those handled are the oldest ones, in the order accepted, each
      sent to its own address or dropped, and all others are still queued, in order. */
  lemma NothingLost(l: Limits, ts: seq<Step>)
    requires NeverTrims(l, ts) && Run(l, ts).Some?
    ensures var s := Run(l, ts).value;
            && |s.accepted| == |s.log| + |Waiting(s)|
            && (forall i | 0 <= i < |Waiting(s)| ::
                  Waiting(s)[i].event.Some? && Waiting(s)[i].event.value.id == |s.log| + i)
            && (forall i | 0 <= i < |s.log| ::
                  s.log[i].id == i && (s.log[i].Sent? ==> s.log[i].addr == Target(s.accepted[i])))
  {
    hide Run, Waiting, Accounted, Numbered;
    RunKeeps(l, ts);
    RunCounts(l, ts);
    var s := Run(l, ts).value;
    EveryId(s.log, Waiting(s), s.accepted, s.pushed);
  }

  /** With the red line above the maximum no run trims: while the thread is busy, the queue has grown from empty by
      publishers that stop above the maximum. */
  lemma {:induction false} NoTrim(l: Limits, ts: seq<Step>)
    requires l.redline >= l.max + 1
    ensures NeverTrims(l, ts)
  {
    if ts != [] {
      var n := |ts| - 1;
      NoTrim(l, ts[..n]);
      if Run(l, ts[..n]).Some? {
        RunKeeps(l, ts[..n]);
      }
    }
  }

  /** What the trim keeps is within the limit only for lists of at most twice that size. */
  lemma LimitExact(list: seq<Entry>, limit: nat)
    ensures |Limit(list, limit)| <= limit <==> |list| <= 2 * limit
  {
  }

  /** The bound on the red line is exact: below it, some run trims. */
  lemma TrimReached(l: Limits, a: Addr) returns (ts: seq<Step>)
    requires l.redline <= l.max
    ensures Run(l, ts).Some? && !NeverTrims(l, ts)
  {
    hide Run;
    var us := HaltedRun(l, a);
    us := Fill(l, us, a, l.redline + 1);
    RunMore(l, us, RequeueStep);
    ts := us + [RequeueStep];
    assert ts[..|us|] == us;
  }

  /** A publisher that finds the queue above the maximum is turned away at once, although the next round would make
      room: the loop that is to wait is left instead.  Some run gets there, whatever the maximum. */
  lemma PublishRefused(l: Limits, a: Addr) returns (ts: seq<Step>)
    ensures Run(l, ts).Some? && Publish(l, Run(l, ts).value, a) == (Run(l, ts).value, false)
  {
    hide Run;
    ts := HaltedRun(l, a);
    ts := Fill(l, ts, a, l.max + 1);
  }

  // ---- the code is a run ----

  /** The rest of a list, entry by entry, until it ends or something fails. */
  function Drive(s: State, luck: nat -> Luck): State
    requires s.drain.Busy? && s.drain.at <= |s.drain.list|
    decreases |s.drain.list| - s.drain.at
  {
    if s.drain.at == |s.drain.list| then Finish(s, luck(s.drain.at).flushed)
    else
      var s' := One(s, luck(s.drain.at));
      if s'.drain.Busy? then Drive(s', luck) else s'
  }

  /** Processing a list is a run of its entries, so whatever holds of every run holds of it. */
  lemma {:induction false} DriveIsRun(l: Limits, ts: seq<Step>, luck: nat -> Luck) returns (us: seq<Step>)
    requires Run(l, ts).Some? && Run(l, ts).value.drain.Busy?
    requires Run(l, ts).value.drain.at <= |Run(l, ts).value.drain.list|
    ensures Run(l, us) == Some(Drive(Run(l, ts).value, luck))
    decreases |Run(l, ts).value.drain.list| - Run(l, ts).value.drain.at
  {
    var s := Run(l, ts).value;
    var k := luck(s.drain.at);
    var t := if s.drain.at == |s.drain.list| then FinishStep(k.flushed) else OneStep(k);
    RunMore(l, ts, t);
    us := ts + [t];
    if Next(l, s, t).drain.Busy? {
      us := DriveIsRun(l, us, luck);
    }
  }

  /** Publishers that come in one after the other. */
  function PublishAll(l: Limits, s: State, addrs: seq<Addr>): State
    decreases |addrs|
  {
    if addrs == [] then s else PublishAll(l, Publish(l, s, addrs[0]).0, addrs[1..])
  }

  /** One round of the draining thread; `coming` are the publishers that come in while it is busy. */
  function Round(l: Limits, s: State, luck: nat -> Luck, coming: seq<Addr>): State
    requires s.drain.Idle?
  {
    if s.events == [] then s
    else
      var s' := PublishAll(l, Drive(Take(s), luck), coming);
      if s'.drain.Halted? then Requeue(l, s') else s'
  }

  /** A round leads from one state of a run to another, so whatever holds of every run holds after it. */
  lemma RoundIsRun(l: Limits, ts: seq<Step>, luck: nat -> Luck, coming: seq<Addr>)
    returns (us: seq<Step>)
    requires Run(l, ts).Some? && Run(l, ts).value.drain.Idle?
    ensures Run(l, us) == Some(Round(l, Run(l, ts).value, luck, coming))
    ensures Round(l, Run(l, ts).value, luck, coming).drain.Idle?
  {
    hide Run, Drive, PublishAll;
    us := ts;
    var s := Run(l, ts).value;
    if s.events != [] {
      RunMore(l, us, TakeStep);
      us := DriveIsRun(l, us + [TakeStep], luck);
      DriveEnds(Take(s), luck);
      PublishAllDrain(l, Run(l, us).value, coming);
      us := PublishAllIsRun(l, us, coming);
      if Run(l, us).value.drain.Halted? {
        RunMore(l, us, RequeueStep);
        us := us + [RequeueStep];
      }
    }
  }

  // ---- one step ----

  lemma {:induction false} LiveAppend(a: seq<Entry>, b: seq<Entry>)
    ensures Live(a + b) == Live(a) + Live(b)
  {
    if a == [] {
      assert a + b == b;
    } else {
      LiveAppend(a[1..], b);
      assert (a + b)[1..] == a[1..] + b;
      Grouped([a[0]], Live(a[1..]), Live(b));
    }
  }

  lemma Grouped(a: seq<Entry>, b: seq<Entry>, c: seq<Entry>)
    ensures a + (b + c) == a + b + c
  {
  }

  /** The entry at hand is the oldest one waiting. */
  lemma LiveSplit(list: seq<Entry>, at: nat, e: Entry)
    requires at < |list| && Live(list[..at]) == []
    ensures Live(list[at := e]) == Live([e]) + Live(list[at + 1..])
    ensures Live(list[at := e][..at + 1]) == Live([e])
    ensures Live(list) == Live([list[at]]) + Live(list[at + 1..])
  {
    var pre, post := list[..at], list[at + 1..];
    assert list[at := e] == pre + ([e] + post);
    assert list == pre + ([list[at]] + post);
    assert list[at := e][..at + 1] == pre + [e];
    LiveAppend(pre, [e] + post);
    LiveAppend([e], post);
    LiveAppend(pre, [e]);
    LiveAppend(pre, [list[at]] + post);
    LiveAppend([list[at]], post);
  }

  lemma PublishKeeps(l: Limits, s: State, addr: Addr)
    requires Inv(l, s)
    ensures Inv(l, Publish(l, s, addr).0)
  {
    hide Live, Numbered, SentCount, Replay, Deliveries, Sendings, Ordered, Handled;
    if |s.events| <= l.max {
      var e := Entry(addr, Some(Event(|s.accepted|, [])));
      LiveAppend(s.events, [e]);
      OneEntry(e);
      var s' := Publish(l, s, addr).0;
      assert Waiting(s') == Waiting(s) + [e];
      NewestOrdered(Waiting(s), s.accepted, Floor(s.log), s.pushed, addr);
      HandledMore(s.log, s.accepted, addr);
    }
  }

  lemma NewestOrdered(w: seq<Entry>, accepted: seq<Addr>, n: nat, pushed: nat, addr: Addr)
    requires Ordered(w, accepted, n, pushed)
    ensures Ordered(w + [Entry(addr, Some(Event(|accepted|, [])))], accepted + [addr], n, pushed)
  {
  }

  lemma HandledMore(log: seq<Outcome>, accepted: seq<Addr>, addr: Addr)
    requires Handled(log, accepted)
    ensures Handled(log, accepted + [addr])
  {
  }

  lemma TakeKeeps(l: Limits, s: State)
    requires Inv(l, s) && s.drain.Idle?
    ensures Inv(l, Take(s))
  {
    hide Handled, Numbered, SentCount, Replay, Deliveries, Sendings, Ordered;
    if s.events != [] {
      assert s.events[..0] == [];
      assert [] + Live(s.events) == Live(s.events) + [];
    }
  }

  lemma FinishKeeps(l: Limits, s: State, flushed: bool)
    requires Inv(l, s) && s.drain.Busy? && s.drain.at == |s.drain.list|
    ensures Inv(l, Finish(s, flushed))
  {
    hide Handled, Numbered, SentCount, Replay, Deliveries, Sendings, Ordered;
    assert s.drain.list[..s.drain.at] == s.drain.list;
    ReplayGiveBack(s.wire, s.drain.lease, s.drain.sent, flushed);
  }

  lemma ReplayGiveBack(w: seq<Wire>, lease: Option<Addr>, sent: nat, flushed: bool)
    requires Replay(w) == if lease.Some? then Out(lease.value, sent) else Free
    ensures var w' := GiveBack(w, lease, sent, flushed); Replay(w') == Free && Deliveries(w') == Deliveries(w)
  {
    if lease.Some? {
      var r := Release(lease.value, if flushed then sent else 0, flushed);
      assert (w + [r])[..|w|] == w;
    }
  }

  lemma RequeueKeeps(l: Limits, s: State)
    requires Inv(l, s) && s.drain.Halted?
    ensures Inv(l, Requeue(l, s))
    ensures |s.events| <= l.redline ==> Waiting(Requeue(l, s)) == Waiting(s)
  {
    hide Handled, Numbered, SentCount, Replay, Deliveries, Sendings, Ordered, Live, Limit;
    var (list, events) := Trim(l, s.drain.list, s.events);
    TrimShortens(l, s.drain.list, s.events);
    LiveAppend(list, events);
    NothingLive();
    LiveShorter(s.drain.list, |list|);
    LiveShorter(s.events, |events|);
    assert Waiting(Requeue(l, s)) == [] + (Live(list) + Live(events)) == Live(list) + Live(events);
    PartsOrdered(Live(s.drain.list), Live(s.events), |Live(list)|, |Live(events)|, s.accepted, Floor(s.log), s.pushed);
  }

  lemma NothingLive()
    ensures Live([]) == []
  {
  }

  /** A trim removes entries from the ends of both lists. */
  lemma TrimShortens(l: Limits, list: seq<Entry>, events: seq<Entry>)
    ensures var (a, b) := Trim(l, list, events);
            |a| <= |list| && |b| <= |events| && a == list[..|a|] && b == events[..|b|]
    ensures |events| <= l.redline ==> Trim(l, list, events) == (list, events)
  {
  }

  lemma LiveShorter(list: seq<Entry>, n: nat)
    requires n <= |list|
    ensures |Live(list[..n])| <= |Live(list)| && Live(list[..n]) == Live(list)[..|Live(list[..n])|]
  {
    hide Live;
    assert list == list[..n] + list[n..];
    LiveAppend(list[..n], list[n..]);
  }

  /** The beginnings of two parts of the waiting events are in order as well. */
  lemma PartsOrdered(a: seq<Entry>, b: seq<Entry>, m: nat, n: nat, accepted: seq<Addr>, k: nat, pushed: nat)
    requires Ordered(a + b, accepted, k, pushed) && m <= |a| && n <= |b|
    ensures Ordered(a[..m] + b[..n], accepted, k, pushed)
  {
    var w, w' := a + b, a[..m] + b[..n];
    forall i | 0 <= i < |w'| ensures w'[i] == w[if i < m then i else i - m + |a|] {
    }
    if w' != [] && m == 0 && a != [] {
      assert w'[0].event.value.stamps == [];
    }
  }

  lemma OneKeeps(l: Limits, s: State, luck: Luck)
    requires Inv(l, s) && s.drain.Busy? && s.drain.at < |s.drain.list|
    ensures Inv(l, One(s, luck))
  {
    hide Live, Waiting, Ordered, Recorded, Accounted;
    OneInOrder(s, luck);
    OneRecorded(s, luck);
    OneAccounted(s, luck);
  }

  /** The list before and after one entry was handled. */
  lemma OneWaiting(s: State, luck: Luck)
    requires s.drain.Busy? && s.drain.at < |s.drain.list| && Live(s.drain.list[..s.drain.at]) == []
    ensures var s', e := One(s, luck), s.drain.list[s.drain.at];
            var e' := Held(s'.drain)[s.drain.at];
            var rest := Live(s.drain.list[s.drain.at + 1..]) + Live(s.events);
            && Waiting(s) == (if e.event.Some? then [e] else []) + rest
            && Waiting(s') == (if e'.event.Some? then [e'] else []) + rest
            && (s'.drain.Busy? ==> Live(s'.drain.list[..s'.drain.at]) == [])
  {
    hide Live;
    var list, at := s.drain.list, s.drain.at;
    var s' := One(s, luck);
    var e' := Held(s'.drain)[at];
    assert Held(s'.drain) == list[at := e'];
    LiveSplit(list, at, e');
    OneEntry(list[at]);
    OneEntry(e');
    var rest := Live(list[at + 1..]);
    Grouped(Live([list[at]]), rest, Live(s.events));
    Grouped(Live([e']), rest, Live(s.events));
  }

  lemma OneInOrder(s: State, luck: Luck)
    requires InOrder(s) && s.drain.Busy? && s.drain.at < |s.drain.list| && Live(s.drain.list[..s.drain.at]) == []
    ensures var s' := One(s, luck);
            && InOrder(s')
            && (s'.drain.Busy? ==> Live(s'.drain.list[..s'.drain.at]) == [])
            && (s.drain.list[s.drain.at].event.Some? ==> Waiting(s) != [] && Waiting(s)[0] == s.drain.list[s.drain.at])
  {
    hide Live, Waiting, Ordered;
    OneWaiting(s, luck);
    var e := s.drain.list[s.drain.at];
    var rest := Live(s.drain.list[s.drain.at + 1..]) + Live(s.events);
    assert [] + rest == rest;
    if e.event.Some? {
      OldestHandled(e, rest, s.accepted, Floor(s.log), s.pushed);
    }
  }

  /** The oldest event is handled, or stamped once more. */
  lemma OldestHandled(e: Entry, rest: seq<Entry>, accepted: seq<Addr>, n: nat, pushed: nat)
    requires e.event.Some? && Ordered([e] + rest, accepted, n, pushed)
    ensures var id := e.event.value.id;
            Ordered(rest, accepted, id + 1, pushed) && Ordered(rest, accepted, id + 1, pushed + 1)
    ensures var e' := Entry(e.addr, Some(Event(e.event.value.id, e.event.value.stamps + [pushed])));
            Ordered([e'] + rest, accepted, n, pushed)
  {
    hide Ordered;
    OldestGone(e, rest, accepted, n, pushed, pushed);
    OldestGone(e, rest, accepted, n, pushed, pushed + 1);
    OldestStamped(e, rest, accepted, n, pushed);
  }

  lemma OldestGone(e: Entry, rest: seq<Entry>, accepted: seq<Addr>, n: nat, pushed: nat, x: nat)
    requires e.event.Some? && Ordered([e] + rest, accepted, n, pushed)
    ensures Ordered(rest, accepted, e.event.value.id + 1, x)
  {
    var w := [e] + rest;
    assert w[0] == e && forall i | 0 <= i < |rest| :: rest[i] == w[i + 1];
  }

  lemma OldestStamped(e: Entry, rest: seq<Entry>, accepted: seq<Addr>, n: nat, pushed: nat)
    requires e.event.Some? && Ordered([e] + rest, accepted, n, pushed)
    ensures var e' := Entry(e.addr, Some(Event(e.event.value.id, e.event.value.stamps + [pushed])));
            Ordered([e'] + rest, accepted, n, pushed)
  {
    var w, w' := [e] + rest, [Entry(e.addr, Some(Event(e.event.value.id, e.event.value.stamps + [pushed])))] + rest;
    assert w[0] == e && w'[0].addr == e.addr;
    assert forall i | 1 <= i < |w| :: w'[i] == w[i];
  }

  lemma OneEntry(e: Entry)
    ensures Live([e]) == if e.event.Some? then [e] else []
  {
  }

  /** What is known of the entry at hand: no event behind it is handled. */
  lemma OldestKnown(w: seq<Entry>, accepted: seq<Addr>, n: nat, pushed: nat)
    requires Ordered(w, accepted, n, pushed) && w != []
    ensures w[0].event.Some?
    ensures var id := w[0].event.value.id; n <= id < |accepted| && w[0].addr == accepted[id]
    ensures forall x | x in w[0].event.value.stamps :: x == pushed
  {
  }

  lemma OneRecorded(s: State, luck: Luck)
    requires InOrder(s) && Recorded(s) && s.drain.Busy? && s.drain.at < |s.drain.list|
    requires s.drain.list[s.drain.at].event.Some? ==> Waiting(s) != [] && Waiting(s)[0] == s.drain.list[s.drain.at]
    ensures Recorded(One(s, luck))
  {
    hide Waiting, Ordered, Handled, Numbered, SentCount, Floor;
    var e := s.drain.list[s.drain.at];
    if e.event.Some? {
      OldestKnown(Waiting(s), s.accepted, Floor(s.log), s.pushed);
      LogMore(s.log, s.accepted, e.event.value.id, e.event.value.stamps + [s.pushed]);
    }
  }

  /** One more outcome, for an event behind those handled. */
  lemma LogMore(log: seq<Outcome>, accepted: seq<Addr>, id: nat, stamps: seq<nat>)
    requires Handled(log, accepted) && Numbered(log) && Floor(log) <= id < |accepted|
    requires stamps != [] && forall x | x in stamps :: x == SentCount(log)
    ensures var more := log + [Dropped(id)];
            Handled(more, accepted) && Numbered(more) && SentCount(more) == SentCount(log)
    ensures var more := log + [Sent(id, Target(accepted[id]), stamps)];
            Handled(more, accepted) && Numbered(more) && SentCount(more) == SentCount(log) + 1
  {
    hide Handled, Numbered, SentCount, Floor;
    var d, t := Dropped(id), Sent(id, Target(accepted[id]), stamps);
    HandledNext(log, accepted, d);
    HandledNext(log, accepted, t);
    NumberedNext(log, d);
    NumberedNext(log, t);
  }

  lemma HandledNext(log: seq<Outcome>, accepted: seq<Addr>, o: Outcome)
    requires Handled(log, accepted) && Floor(log) <= o.id < |accepted|
    requires o.Sent? ==> o.addr == Target(accepted[o.id])
    ensures Handled(log + [o], accepted)
  {
    hide Floor;
    var more := log + [o];
    forall i, j | 0 <= i < j < |more| ensures more[i].id < more[j].id {
      BelowFloor(log, accepted, i);
      if j < |log| {
        assert more[i] == log[i] && more[j] == log[j];
      }
    }
  }

  lemma BelowFloor(log: seq<Outcome>, accepted: seq<Addr>, i: nat)
    requires Handled(log, accepted) && i < |log|
    ensures log[i].id < Floor(log)
  {
    if i < |log| - 1 {
      assert log[i].id < log[|log| - 1].id;
    }
  }

  lemma NumberedNext(log: seq<Outcome>, o: Outcome)
    requires Numbered(log)
    requires o.Sent? ==> o.stamps != [] && forall x | x in o.stamps :: x == SentCount(log)
    ensures Numbered(log + [o]) && SentCount(log + [o]) == SentCount(log) + if o.Sent? then 1 else 0
  {
    assert (log + [o])[..|log|] == log;
  }

  lemma OneAccounted(s: State, luck: Luck)
    requires Accounted(s) && Recorded(s) && s.drain.Busy? && s.drain.at < |s.drain.list|
    ensures Accounted(One(s, luck))
  {
    hide Replay, Deliveries, Sendings, SentCount, Handled, Numbered;
    var Busy(list, at, lease, sent) := s.drain;
    var e := list[at];
    if e.event.Some? {
      var target, w := Target(e.addr), s.wire;
      SendingsMore(s.log, e.event.value.id, target, e.event.value.stamps + [s.pushed]);
      if lease != Some(target) {
        ReplayGiveBack(w, lease, sent, luck.flushed);
        w := GiveBack(w, lease, sent, luck.flushed);
        if luck.got {
          OneLease(w, target);
          OneSend(w + [Lease(target)], target, 0, e.event.value.id, s.pushed, luck.flushedLast);
        }
      } else {
        OneSend(w, target, sent, e.event.value.id, s.pushed, luck.flushedLast);
      }
    }
  }

  lemma SendingsMore(log: seq<Outcome>, id: nat, addr: Addr, stamps: seq<nat>)
    ensures Sendings(log + [Dropped(id)]) == Sendings(log)
    ensures Sendings(log + [Sent(id, addr, stamps)]) == Sendings(log) + [Delivery(addr, id, SentCount(log))]
  {
    assert (log + [Dropped(id)])[..|log|] == log && (log + [Sent(id, addr, stamps)])[..|log|] == log;
  }

  lemma OneLease(w: seq<Wire>, a: Addr)
    requires Replay(w) == Free
    ensures Replay(w + [Lease(a)]) == Out(a, 0) && Deliveries(w + [Lease(a)]) == Deliveries(w)
  {
    assert (w + [Lease(a)])[..|w|] == w;
  }

  lemma OneSend(w: seq<Wire>, a: Addr, n: nat, id: nat, number: nat, flushed: bool)
    requires Replay(w) == Out(a, n)
    ensures Replay(w + [Send(id, number)]) == Out(a, n + 1)
    ensures Deliveries(w + [Send(id, number)]) == Deliveries(w) + [Delivery(a, id, number)]
    ensures var w' := GiveBack(w, Some(a), n, flushed); Replay(w') == Free && Deliveries(w') == Deliveries(w)
  {
    assert (w + [Send(id, number)])[..|w|] == w;
    ReplayGiveBack(w, Some(a), n, flushed);
  }

  lemma InvStart(l: Limits)
    ensures Inv(l, INIT)
  {
    assert Waiting(INIT) == [];
    assert Replay([]) == Free && Deliveries([]) == Sendings([]) == [] && SentCount([]) == 0 && Numbered([]);
  }

  // ---- deliveries and numbers ----

  /** Ids below `floor` and going up, own addresses, and numbers that count. */
  ghost predicate Regular(out: seq<Delivery>, accepted: seq<Addr>, floor: nat) {
    && (forall i, j | 0 <= i < j < |out| :: out[i].id < out[j].id)
    && (forall i | 0 <= i < |out| ::
          && out[i].number == i && out[i].id < |accepted| && out[i].addr == Target(accepted[out[i].id])
          && out[i].id < floor)
  }

  lemma RegularMore(out: seq<Delivery>, accepted: seq<Addr>, floor: nat, d: Delivery)
    requires Regular(out, accepted, floor) && floor <= d.id < |accepted| && d.addr == Target(accepted[d.id])
    ensures d.number == |out| ==> Regular(out + [d], accepted, d.id + 1)
    ensures Regular(out, accepted, d.id + 1)
  {
  }

  lemma {:induction false} SendingsInOrder(log: seq<Outcome>, accepted: seq<Addr>)
    requires Handled(log, accepted)
    ensures |Sendings(log)| == SentCount(log) && Regular(Sendings(log), accepted, Floor(log))
  {
    hide Regular, Handled, Floor;
    if log == [] {
      RegularNone(accepted);
    } else {
      var n := |log| - 1;
      HandledBefore(log, accepted);
      SendingsInOrder(log[..n], accepted);
      var d := Delivery(Target(accepted[log[n].id]), log[n].id, SentCount(log[..n]));
      RegularMore(Sendings(log[..n]), accepted, Floor(log[..n]), d);
      assert Sendings(log[..n]) + [] == Sendings(log[..n]);
    }
  }

  lemma RegularNone(accepted: seq<Addr>)
    ensures Regular([], accepted, Floor([]))
  {
  }

  lemma HandledBefore(log: seq<Outcome>, accepted: seq<Addr>)
    requires Handled(log, accepted) && log != []
    ensures var n := |log| - 1;
            && Handled(log[..n], accepted) && Floor(log[..n]) <= log[n].id < |accepted|
            && Floor(log) == log[n].id + 1 && (log[n].Sent? ==> log[n].addr == Target(accepted[log[n].id]))
  {
    var n := |log| - 1;
    if n > 0 {
      assert log[..n][n - 1] == log[n - 1] && log[n - 1].id < log[n].id;
    }
  }

  lemma {:induction false} NumberAt(log: seq<Outcome>, i: nat)
    requires Numbered(log) && i < |log| && log[i].Sent?
    ensures log[i].stamps != [] && forall x | x in log[i].stamps :: x == SentCount(log[..i])
    decreases |log|
  {
    var n := |log| - 1;
    if i < n {
      NumberAt(log[..n], i);
      assert log[..n][..i] == log[..i];
    }
  }

  // ---- counting ----

  /** Every accepted event is handled or waiting. */
  ghost predicate AllThere(s: State) {
    |s.accepted| == |s.log| + |Waiting(s)|
  }

  lemma PublishCounts(l: Limits, s: State, addr: Addr)
    requires AllThere(s)
    ensures AllThere(Publish(l, s, addr).0)
  {
    hide Live;
    if |s.events| <= l.max {
      var e := Entry(addr, Some(Event(|s.accepted|, [])));
      LiveAppend(s.events, [e]);
      OneEntry(e);
    }
  }

  lemma TakeCounts(s: State)
    requires AllThere(s) && s.drain.Idle?
    ensures AllThere(Take(s))
  {
    NothingLive();
  }

  lemma FinishCounts(s: State, flushed: bool)
    requires AllThere(s) && s.drain.Busy? && s.drain.at == |s.drain.list| && Live(s.drain.list[..s.drain.at]) == []
    ensures AllThere(Finish(s, flushed))
  {
    hide Live;
    assert s.drain.list[..s.drain.at] == s.drain.list;
    NothingLive();
  }

  lemma OneCounts(s: State, luck: Luck)
    requires AllThere(s) && s.drain.Busy? && s.drain.at < |s.drain.list| && Live(s.drain.list[..s.drain.at]) == []
    ensures AllThere(One(s, luck))
  {
    hide Waiting, Live;
    OneWaiting(s, luck);
  }

  lemma {:induction false} RunCounts(l: Limits, ts: seq<Step>)
    requires NeverTrims(l, ts) && Run(l, ts).Some?
    ensures AllThere(Run(l, ts).value)
  {
    hide AllThere, Ordered, Handled, Live, Recorded, Accounted;
    if ts != [] {
      var n := |ts| - 1;
      RunCounts(l, ts[..n]);
      RunKeeps(l, ts[..n]);
      var r := Run(l, ts[..n]).value;
      match ts[n]
      case PublishStep(a) => PublishCounts(l, r, a);
      case TakeStep => TakeCounts(r);
      case OneStep(luck) => OneCounts(r, luck);
      case FinishStep(flushed) => FinishCounts(r, flushed);
      case RequeueStep => RequeueCounts(l, r);
    } else {
      CountStart();
    }
  }

  lemma CountStart()
    ensures AllThere(INIT)
  {
  }

  lemma RequeueCounts(l: Limits, s: State)
    requires AllThere(s) && Inv(l, s) && s.drain.Halted? && |s.events| <= l.redline
    ensures AllThere(Requeue(l, s))
  {
    hide Inv, Waiting;
    RequeueKeeps(l, s);
  }

  /** Strictly increasing numbers below as many as there are. */
  lemma {:induction false} AllOfThem(ids: seq<nat>, n: nat)
    requires |ids| == n && (forall i, j | 0 <= i < j < n :: ids[i] < ids[j]) && forall i | 0 <= i < n :: ids[i] < n
    ensures forall i | 0 <= i < n :: ids[i] == i
  {
    if n > 0 {
      var k := n - 1;
      forall i | 0 <= i < k ensures ids[i] < k {
        assert ids[i] < ids[k];
      }
      AllOfThem(ids[..k], k);
      if k > 0 {
        assert ids[..k][k - 1] == k - 1 && ids[k - 1] < ids[k];
      }
    }
  }

  lemma EveryId(log: seq<Outcome>, w: seq<Entry>, accepted: seq<Addr>, pushed: nat)
    requires Handled(log, accepted) && Ordered(w, accepted, Floor(log), pushed) && |accepted| == |log| + |w|
    ensures forall i | 0 <= i < |log| :: log[i].id == i
    ensures forall i | 0 <= i < |w| :: w[i].event.Some? && w[i].event.value.id == |log| + i
  {
    hide Handled, Ordered, Floor;
    WaitingKnown(w, accepted, Floor(log), pushed);
    var m, n := |log|, |accepted|;
    var ids := seq(n, i requires 0 <= i < n => IdAt(log, w, i));
    forall i, j | 0 <= i < j < n ensures ids[i] < ids[j] {
      IdsIncrease(log, w, accepted, pushed, i, j);
    }
    forall i | 0 <= i < n ensures ids[i] < n {
      IdBelow(log, w, accepted, pushed, i);
    }
    AllOfThem(ids, n);
    forall i | 0 <= i < m ensures log[i].id == i {
      assert ids[i] == i;
    }
    forall i | 0 <= i < |w| ensures w[i].event.value.id == m + i {
      assert ids[m + i] == m + i;
    }
  }

  /** The ids of the events handled and then of those waiting. */
  function IdAt(log: seq<Outcome>, w: seq<Entry>, i: nat): nat {
    if i < |log| then log[i].id
    else if i - |log| < |w| && w[i - |log|].event.Some? then w[i - |log|].event.value.id
    else 0
  }

  lemma WaitingKnown(w: seq<Entry>, accepted: seq<Addr>, n: nat, pushed: nat)
    requires Ordered(w, accepted, n, pushed)
    ensures forall i | 0 <= i < |w| :: w[i].event.Some?
  {
  }

  lemma IdsIncrease(log: seq<Outcome>, w: seq<Entry>, accepted: seq<Addr>, pushed: nat, i: nat, j: nat)
    requires Handled(log, accepted) && Ordered(w, accepted, Floor(log), pushed) && i < j < |log| + |w|
    ensures IdAt(log, w, i) < IdAt(log, w, j)
  {
    hide Floor;
    if i < |log| {
      BelowFloor(log, accepted, i);
    }
  }

  lemma IdBelow(log: seq<Outcome>, w: seq<Entry>, accepted: seq<Addr>, pushed: nat, i: nat)
    requires Handled(log, accepted) && Ordered(w, accepted, Floor(log), pushed) && i < |log| + |w|
    ensures IdAt(log, w, i) < |accepted|
  {
    hide Floor;
  }

  // ---- building runs ----

  lemma RunMore(l: Limits, ts: seq<Step>, t: Step)
    requires Run(l, ts).Some? && Enabled(Run(l, ts).value, t)
    ensures Run(l, ts + [t]) == Some(Next(l, Run(l, ts).value, t))
  {
    assert (ts + [t])[..|ts|] == ts;
  }

  /** While the thread waits for the lock with a list to put back, publishers can fill the queue. */
  lemma {:induction false} Fill(l: Limits, ts: seq<Step>, a: Addr, n: nat) returns (us: seq<Step>)
    requires n <= l.max + 1
    requires Run(l, ts).Some? && Run(l, ts).value.drain.Halted? && Run(l, ts).value.events == []
    ensures Run(l, us).Some? && Run(l, us).value.drain.Halted? && |Run(l, us).value.events| == n
  {
    if n == 0 {
      us := ts;
    } else {
      us := Fill(l, ts, a, n - 1);
      RunMore(l, us, PublishStep(a));
      us := us + [PublishStep(a)];
    }
  }

  /** One event is published and taken, and no connection can be had for it. */
  lemma HaltedRun(l: Limits, a: Addr) returns (us: seq<Step>)
    ensures Run(l, us).Some? && Run(l, us).value.drain.Halted? && Run(l, us).value.events == []
  {
    hide Run;
    RunNothing(l);
    RunMore(l, [], PublishStep(a));
    us := [] + [PublishStep(a)];
    assert Run(l, us).value.events != [];
    RunMore(l, us, TakeStep);
    us := us + [TakeStep];
    RunMore(l, us, OneStep(Luck(true, false, false, true)));
    us := us + [OneStep(Luck(true, false, false, true))];
  }

  lemma RunNothing(l: Limits)
    ensures Run(l, []) == Some(INIT)
  {
  }

  lemma {:induction false} PublishAllIsRun(l: Limits, ts: seq<Step>, coming: seq<Addr>) returns (us: seq<Step>)
    requires Run(l, ts).Some?
    ensures Run(l, us) == Some(PublishAll(l, Run(l, ts).value, coming))
    decreases |coming|
  {
    hide Run;
    if coming == [] {
      us := ts;
    } else {
      RunMore(l, ts, PublishStep(coming[0]));
      us := PublishAllIsRun(l, ts + [PublishStep(coming[0])], coming[1..]);
    }
  }

  lemma {:induction false} PublishAllDrain(l: Limits, s: State, coming: seq<Addr>)
    ensures PublishAll(l, s, coming).drain == s.drain
    decreases |coming|
  {
    if coming != [] {
      PublishAllDrain(l, Publish(l, s, coming[0]).0, coming[1..]);
    }
  }

  lemma {:induction false} DriveEnds(s: State, luck: nat -> Luck)
    requires s.drain.Busy? && s.drain.at <= |s.drain.list|
    ensures !Drive(s, luck).drain.Busy?
    decreases |s.drain.list| - s.drain.at
  {
    if s.drain.at < |s.drain.list| {
      var s' := One(s, luck(s.drain.at));
      if s'.drain.Busy? {
        DriveEnds(s', luck);
      }
    }
  }

  class Publisher {
    const limits: Limits
    var events: seq<Entry>
    var pushed: nat
    var published: nat
    ghost var accepted: seq<Addr>
    ghost var log: seq<Outcome>
    ghost var wire: seq<Wire>

    constructor (limits: Limits)
      ensures this.limits == limits && View(Idle) == INIT && published == 0
    {
      this.limits := limits;
      events, pushed, published, accepted, log, wire := [], 0, 0, [], [], [];
    }

    ghost function View(d: Drain): State
      reads this
    {
      State(events, d, pushed, accepted, log, wire)
    }

    /** Called by any thread; `d` is what the draining thread is doing meanwhile. */
    method Add(addr: Addr, ghost d: Drain) returns (ok: bool)
      requires published == |accepted|
      modifies this`events, this`published, this`accepted
      ensures published == |accepted|
      ensures (View(d), ok) == Publish(limits, old(View(d)), addr)
      ensures published == old(published) + if ok then 1 else 0
    {
      ok := false;
      if |events| > limits.max {
        return;
      }
      events := events + [Entry(addr, Some(Event(published, [])))];
      accepted := accepted + [addr];
      published := published + 1;
      ok := true;
    }

    /** One entry: the connection is changed if need be, and the event stamped and handed over. */
    method ProcessOne(list: seq<Entry>, at: nat, lease: Option<Addr>, count: nat, luck: Luck)
      returns (ok: bool, current: seq<Entry>, addr: Option<Addr>, sent: nat)
      requires at < |list| && list[at].event.Some?
      modifies this`pushed, this`log, this`wire
      ensures |current| == |list|
      ensures View(if ok then Busy(current, at + 1, addr, sent) else Halted(current)) ==
              One(old(View(Busy(list, at, lease, count))), luck)
    {
      current, addr, sent := list, lease, count;
      var Entry(a, event) := list[at];
      var target := if a == "" then DEFAULT_ADDR else a;
      if addr != Some(target) {
        if addr.Some? {
          wire := wire + [Release(addr.value, if luck.flushed then sent else 0, luck.flushed)];
        }
        addr := None;
        if !luck.got {
          current := current[at := Entry(a, None)];
          log := log + [Dropped(event.value.id)];
          return false, current, addr, sent;
        }
        wire := wire + [Lease(target)];
        addr, sent := Some(target), 0;
      }
      var e := Event(event.value.id, event.value.stamps + [pushed]);
      current := current[at := Entry(a, Some(e))];
      if !luck.sent {
        wire := wire + [Release(target, if luck.flushedLast then sent else 0, luck.flushedLast)];
        return false, current, addr, sent;
      }
      wire := wire + [Send(e.id, pushed)];
      log := log + [Sent(e.id, target, e.stamps)];
      sent, pushed := sent + 1, pushed + 1;
      current := current[at := Entry(a, None)];
      assert current == list[at := Entry(a, None)];
      return true, current, addr, sent;
    }

    method ProcessList(list: seq<Entry>, luck: nat -> Luck)
      returns (ok: bool, current: seq<Entry>)
      modifies this`pushed, this`log, this`wire
      ensures View(if ok then Idle else Halted(current)) == Drive(old(View(Busy(list, 0, None, 0))), luck)
    {
      current := list;
      var addr: Option<Addr>, sent := None, 0;
      var at := 0;
      ghost var start := View(Busy(list, 0, None, 0));
      while at < |current|
        invariant at <= |current| == |list|
        invariant Drive(View(Busy(current, at, addr, sent)), luck) == Drive(start, luck)
      {
        if current[at].event.Some? {
          ok, current, addr, sent := ProcessOne(current, at, addr, sent, luck(at));
          if !ok { return; }
        }
        at := at + 1;
      }
      if addr.Some? {
        var flushed := luck(at).flushed;
        wire := wire + [Release(addr.value, if flushed then sent else 0, flushed)];
      }
      return true, current;
    }

    /** Puts back what a failed round left. */
    method PutBack(list: seq<Entry>)
      modifies this`events
      ensures View(Idle) == Requeue(limits, old(View(Halted(list))))
    {
      var (current, rest) := Trim(limits, list, events);
      events := current + rest;
    }

    /** Publishers of other threads, while the draining thread is at `d`. */
    method AddAll(addrs: seq<Addr>, ghost d: Drain)
      requires published == |accepted|
      modifies this`events, this`published, this`accepted
      ensures published == |accepted|
      ensures View(d) == PublishAll(limits, old(View(d)), addrs)
    {
      hide Publish;
      ghost var start := View(d);
      var i := 0;
      assert addrs[0..] == addrs;
      while i < |addrs|
        invariant i <= |addrs| && published == |accepted|
        invariant PublishAll(limits, View(d), addrs[i..]) == PublishAll(limits, start, addrs)
      {
        assert addrs[i..][1..] == addrs[i + 1..];
        var _ := Add(addrs[i], d);
        i := i + 1;
      }
    }

    method DrainRound(luck: nat -> Luck, coming: seq<Addr>)
      requires published == |accepted|
      modifies this
      ensures published == |accepted|
      ensures View(Idle) == Round(limits, old(View(Idle)), luck, coming)
    {
      hide Drive, PublishAll;
      if |events| == 0 {
        return;
      }
      var list := events;
      events := [];
      var ok, current := ProcessList(list, luck);
      ghost var d := if ok then Idle else Halted(current);
      PublishAllDrain(limits, View(d), coming);
      AddAll(coming, d);
      if !ok {
        PutBack(current);
      }
    }
  }
}
