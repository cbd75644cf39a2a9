/**
 Presence of other hosts and counting of reconnects: transport/zenoh_transport.cpp, lines
 240-286 and 304-330.
 */
module Presence {
  import opened Common

  // ----- Presence -----

  datatype Event = Event(host: string, online: bool, at: int)

  datatype Record = Record(online: bool, changedAt: int, transitions: nat)

  function HostEvents(events: seq<Event>, host: string): seq<Event> {
    if events == [] then []
    else
      var before := HostEvents(DropLast(events), host);
      if Last(events).host == host then before + [Last(events)] else before
  }

  function Updated(record: Option<Record>, e: Event): Record {
    match record
    case None => Record(e.online, e.at, if e.online then 1 else 0)
    case Some(r) =>
      if r.online == e.online then r
      else Record(e.online, e.at, r.transitions + if e.online then 1 else 0)
  }

  function RecordOf(es: seq<Event>): Option<Record> {
    if es == [] then None else Some(Updated(RecordOf(DropLast(es)), Last(es)))
  }

  // The index opens a run of equal states.
  predicate OpensRun(es: seq<Event>, i: nat) {
    i < |es| && (i == 0 || es[i - 1].online != es[i].online)
  }

  ghost function OnlineRuns(es: seq<Event>): set<nat> {
    set i: nat | i < |es| && es[i].online && OpensRun(es, i)
  }

  // The current run: it opens at k, and the state has not changed since.
  ghost predicate CurrentRun(es: seq<Event>, k: nat) {
    k < |es| && OpensRun(es, k) && forall i :: k <= i < |es| ==> es[i].online == Last(es).online
  }

  lemma OneMoreRun(es: seq<Event>)
    requires es != []
    ensures var last := |es| - 1;
            |OnlineRuns(es)| == |OnlineRuns(DropLast(es))| + if es[last].online && OpensRun(es, last) then 1 else 0
  {
    var before, last := DropLast(es), |es| - 1;
    assert forall i: nat :: i < |before| ==> before[i] == es[i] && (OpensRun(es, i) <==> OpensRun(before, i));
    assert OnlineRuns(es) - {last} == OnlineRuns(before);
  }

  lemma SameRun(es: seq<Event>, k: nat)
    requires es != [] && CurrentRun(DropLast(es), k) && Last(DropLast(es)).online == Last(es).online
    ensures CurrentRun(es, k)
  {
    var before := DropLast(es);
    forall i | k <= i < |es|
      ensures es[i].online == Last(es).online
    {
      if i < |before| {
        assert before[i] == es[i];
      }
    }
  }

  // A host's record is its last state, the number of its maximal online runs, and the start
  // of its current run.
  lemma {:induction false} RecordIsHistory(es: seq<Event>) returns (k: nat)
    requires es != []
    ensures RecordOf(es).Some? && RecordOf(es).value.online == Last(es).online
    ensures RecordOf(es).value.transitions == |OnlineRuns(es)|
    ensures CurrentRun(es, k) && RecordOf(es).value.changedAt == es[k].at
  {
    var before := DropLast(es);
    OneMoreRun(es);
    k := |es| - 1;
    if before != [] {
      var j := RecordIsHistory(before);
      if Last(before).online == Last(es).online {
        k := j;
        SameRun(es, k);
      }
    } else {
      assert OnlineRuns(before) == {};
    }
  }

  class PresenceTable {
    var presence: map<string, Record>
    ghost var events: seq<Event>

    ghost predicate Valid()
      reads this
    {
      forall h :: RecordAt(events, h) == if h in presence then Some(presence[h]) else None
    }

    constructor ()
      ensures Valid() && events == []
    {
      presence, events := map[], [];
    }

    method UpdatePresence(host: string, online: bool, now: int)
      requires Valid()
      modifies this
      ensures Valid() && events == old(events) + [Event(host, online, now)]
    {
      OneMoreEvent(events, Event(host, online, now));
      events := events + [Event(host, online, now)];
      if host !in presence {
        presence := presence[host := Record(online, now, if online then 1 else 0)];
        return;
      }
      var existing := presence[host];
      if existing.online == online {
        return;
      }
      existing := existing.(online := online, changedAt := now);
      if online {
        existing := existing.(transitions := existing.transitions + 1);
      }
      presence := presence[host := existing];
    }
  }

  function RecordAt(events: seq<Event>, host: string): Option<Record> {
    RecordOf(HostEvents(events, host))
  }

  lemma OneMoreEvent(events: seq<Event>, e: Event)
    ensures RecordAt(events + [e], e.host) == Some(Updated(RecordAt(events, e.host), e))
    ensures forall h :: h != e.host ==> RecordAt(events + [e], h) == RecordAt(events, h)
  {
    assert DropLast(events + [e]) == events;
    assert DropLast(HostEvents(events, e.host) + [e]) == HostEvents(events, e.host);
  }

  // ----- Reconnects -----

  // Where a poll of Stats stands: idle, past its exchange on the link flag having seen a
  // rising edge, or past its exchange on the ever-connected flag with a reconnect to add
  datatype Poller = Idle | SawEdge | MustAdd

  // observed lists the values exchanged into the link flag, oldest first.
  datatype Link = Link(
    lastConnected: bool,
    everConnected: bool,
    reconnects: nat,
    pollers: seq<Poller>,
    observed: seq<bool>)

  datatype PollStep =
    | ExchangeLink(poller: nat, connected: bool)
    | ExchangeEver(poller: nat)
    | AddReconnect(poller: nat)

  predicate Enabled(s: Link, step: PollStep) {
    step.poller < |s.pollers| &&
    match step
    case ExchangeLink(i, _) => s.pollers[i].Idle?
    case ExchangeEver(i) => s.pollers[i].SawEdge?
    case AddReconnect(i) => s.pollers[i].MustAdd?
  }

  function Apply(s: Link, step: PollStep): Link
    requires Enabled(s, step)
  {
    match step
    case ExchangeLink(i, connected) =>
      s.(lastConnected := connected, observed := s.observed + [connected],
         pollers := s.pollers[i := if connected && !s.lastConnected then SawEdge else Idle])
    case ExchangeEver(i) =>
      s.(everConnected := true, pollers := s.pollers[i := if s.everConnected then MustAdd else Idle])
    case AddReconnect(i) =>
      s.(reconnects := s.reconnects + 1, pollers := s.pollers[i := Idle])
  }

  function Pending(pollers: seq<Poller>): nat {
    if pollers == [] then 0
    else Pending(DropLast(pollers)) + (if Last(pollers).Idle? then 0 else 1)
  }

  function RisingEdges(observed: seq<bool>): nat {
    if observed == [] then 0
    else RisingEdges(DropLast(observed))
         + (if Last(observed) && (|observed| == 1 || !Last(DropLast(observed))) then 1 else 0)
  }

  lemma {:induction false} PendingUpdate(pollers: seq<Poller>, i: nat, p: Poller)
    requires i < |pollers|
    ensures Pending(pollers[i := p])
         == Pending(pollers) + (if p.Idle? then 0 else 1) - (if pollers[i].Idle? then 0 else 1)
  {
    var after := pollers[i := p];
    if i < |pollers| - 1 {
      assert DropLast(after) == DropLast(pollers)[i := p];
      PendingUpdate(DropLast(pollers), i, p);
    } else {
      assert DropLast(after) == DropLast(pollers);
    }
  }

  ghost predicate Inv(s: Link) {
    && s.lastConnected == (s.observed != [] && Last(s.observed))
    && RisingEdges(s.observed) == s.reconnects + Pending(s.pollers) + (if s.everConnected then 1 else 0)
    && (!s.everConnected ==> s.reconnects == 0 && forall i :: 0 <= i < |s.pollers| ==> !s.pollers[i].MustAdd?)
  }

  lemma StepInv(s: Link, step: PollStep)
    requires Inv(s) && Enabled(s, step)
    ensures Inv(Apply(s, step))
  {
    var i := step.poller;
    PendingUpdate(s.pollers, i, Apply(s, step).pollers[i]);
    if step.ExchangeLink? {
      LastOfAppend(s.observed, [step.connected]);
      assert s.observed + DropLast([step.connected]) == s.observed;
    }
  }

  function Start(pollers: nat): Link {
    Link(false, false, 0, seq(pollers, _ => Idle), [])
  }

  lemma {:induction false} NonePending(pollers: seq<Poller>)
    requires forall i :: 0 <= i < |pollers| ==> pollers[i].Idle?
    ensures Pending(pollers) == 0
  {
    if pollers != [] {
      NonePending(DropLast(pollers));
    }
  }

  ghost predicate IsRun(states: seq<Link>, steps: seq<PollStep>) {
    && |states| == |steps| + 1
    && states[0] == Start(|states[0].pollers|)
    && forall i :: 0 <= i < |steps| ==> Enabled(states[i], steps[i]) && states[i + 1] == Apply(states[i], steps[i])
  }

  lemma {:induction false} RunInv(states: seq<Link>, steps: seq<PollStep>, i: nat)
    requires IsRun(states, steps) && i < |states|
    ensures Inv(states[i])
  {
    if i == 0 {
      NonePending(states[0].pollers);
    } else {
      RunInv(states, steps, i - 1);
      StepInv(states[i - 1], steps[i - 1]);
    }
  }

  // However polls interleave, every rising edge is a counted reconnect, a pending poll, or the
  // first connection; with no poll in flight the count is the edges after the first.
  lemma EdgesAccountedFor(states: seq<Link>, steps: seq<PollStep>, i: nat)
    requires IsRun(states, steps) && i < |states|
    ensures var s := states[i];
            && (s.everConnected ==> RisingEdges(s.observed) == s.reconnects + Pending(s.pollers) + 1)
            && (!s.everConnected ==> RisingEdges(s.observed) == Pending(s.pollers))
            && ((forall p <- s.pollers :: p.Idle?) ==>
                  s.reconnects == if RisingEdges(s.observed) == 0 then 0 else RisingEdges(s.observed) - 1)
  {
    RunInv(states, steps, i);
    if forall p <- states[i].pollers :: p.Idle? {
      NonePending(states[i].pollers);
    }
  }

  // Stats as one poller runs it, undisturbed
  class LinkStats {
    var lastLinkConnected: bool
    var everLinkConnected: bool
    var reconnectCount: nat
    ghost var observed: seq<bool>

    ghost predicate Valid()
      reads this
    {
      && lastLinkConnected == (observed != [] && Last(observed))
      && (everLinkConnected <==> RisingEdges(observed) > 0)
      && reconnectCount == if RisingEdges(observed) == 0 then 0 else RisingEdges(observed) - 1
    }

    constructor ()
      ensures Valid() && observed == []
    {
      lastLinkConnected, everLinkConnected, reconnectCount, observed := false, false, 0, [];
    }

    method Stats(peers: nat, routers: nat) returns (linkConnected: bool, reconnects: nat)
      requires Valid()
      modifies this
      ensures Valid() && observed == old(observed) + [linkConnected]
      ensures (linkConnected <==> peers + routers > 0) && reconnects == reconnectCount
    {
      linkConnected := peers + routers > 0;
      LastOfAppend(observed, [linkConnected]);
      assert observed + DropLast([linkConnected]) == observed;
      var wasConnected := lastLinkConnected;
      observed := observed + [linkConnected];
      lastLinkConnected := linkConnected;
      if linkConnected && !wasConnected {
        var everBefore := everLinkConnected;
        everLinkConnected := true;
        if everBefore {
          reconnectCount := reconnectCount + 1;
        }
      }
      reconnects := reconnectCount;
    }
  }
}
