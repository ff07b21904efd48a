/** The second downtime computation: the per-container fold of `reliability`. */
module Reliability {
  import opened JsValues
  import opened Availability

  /** `downSince` is the instant of the first event of the outage that is still open. */
  datatype Tally = Tally(downMs: int, incidents: nat, downSince: Option<int>)

  const NO_TALLY := Tally(0, 0, None)

  datatype NamedEvent = NamedEvent(name: string, event: StateEvent)

  function Fold(s: Tally, e: StateEvent): Tally {
    if e.toState != RUNNING then
      if s.downSince.None? then Tally(s.downMs, s.incidents + 1, Some(e.ts)) else s
    else if s.downSince.Some? then Tally(s.downMs + (e.ts - s.downSince.value), s.incidents, None)
    else s
  }

  ghost function FoldAll(s: Tally, events: seq<StateEvent>): Tally
    decreases |events|
  {
    if events == [] then s else FoldAll(Fold(s, events[0]), events[1..])
  }

  /** An outage still open at the end counts until now. */
  function Close(s: Tally, now: int): Tally {
    if s.downSince.Some? then Tally(s.downMs + (now - s.downSince.value), s.incidents, None) else s
  }

  ghost function Of(name: string, events: seq<NamedEvent>): seq<StateEvent> {
    if events == [] then []
    else
      Of(name, events[..|events| - 1]) +
      (if events[|events| - 1].name == name then [events[|events| - 1].event] else [])
  }

  ghost function Names(events: seq<NamedEvent>): set<string> { set e | e in events :: e.name }

  ghost function TallyOf(name: string, events: seq<NamedEvent>): Tally { FoldAll(NO_TALLY, Of(name, events)) }

  /** All containers in one pass over the events, then the open outages. */
  method Tallies(events: seq<NamedEvent>, now: int) returns (tallies: map<string, Tally>)
    ensures tallies.Keys == Names(events)
    ensures forall name | name in tallies :: tallies[name] == Close(TallyOf(name, events), now)
  {
    hide Fold, Of, FoldAll, Names;
    var open: map<string, Tally> := map[];
    NoNames();
    for i := 0 to |events|
      invariant open.Keys == Names(events[..i])
      invariant forall name | name in open :: open[name] == TallyOf(name, events[..i])
    {
      var name, e := events[i].name, events[i].event;
      var s := if name in open then open[name] else NO_TALLY;
      NextTally(events, i);
      if name !in open {
        Unnamed(name, events[..i]);
      }
      open := open[name := Fold(s, e)];
    }
    assert events[..|events|] == events;
    tallies := map name | name in open :: Close(open[name], now);
  }

  lemma {:induction false} NoNames()
    ensures forall events: seq<NamedEvent> | events == [] :: Names(events) == {}
  {
  }

  lemma {:induction false} NextTally(events: seq<NamedEvent>, i: nat)
    requires i < |events|
    ensures Names(events[..i + 1]) == Names(events[..i]) + {events[i].name}
    ensures TallyOf(events[i].name, events[..i + 1]) == Fold(TallyOf(events[i].name, events[..i]), events[i].event)
    ensures forall name | name != events[i].name :: TallyOf(name, events[..i + 1]) == TallyOf(name, events[..i])
  {
    hide Fold;
    var longer := events[..i + 1];
    assert longer == events[..i] + [events[i]];
    assert longer[..|longer| - 1] == events[..i];
    FoldSnoc(NO_TALLY, Of(events[i].name, events[..i]), events[i].event);
    forall name | name != events[i].name
      ensures TallyOf(name, longer) == TallyOf(name, events[..i])
    {
      assert Of(name, longer) == Of(name, events[..i]) + [];
      assert Of(name, events[..i]) + [] == Of(name, events[..i]);
    }
  }

  lemma {:induction false} Unnamed(name: string, events: seq<NamedEvent>)
    requires name !in Names(events)
    ensures TallyOf(name, events) == NO_TALLY && Of(name, events) == []
  {
    if events != [] {
      var n := |events| - 1;
      assert events[n] in events && events[n].name in Names(events);
      assert forall e | e in events[..n] :: e in events;
      Unnamed(name, events[..n]);
    }
  }

  lemma {:induction false} FoldSnoc(s: Tally, events: seq<StateEvent>, e: StateEvent)
    ensures FoldAll(s, events + [e]) == Fold(FoldAll(s, events), e)
    decreases |events|
  {
    if events == [] {
      assert ([] + [e])[1..] == [];
    } else {
      FoldSnoc(Fold(s, events[0]), events[1..], e);
      assert (events + [e])[1..] == events[1..] + [e];
    }
  }

  // ---------- against the sweep ----------

  /** From any point on, the fold and the sweep add the same amounts. */
  lemma {:induction false} FoldFollowsSweep(s: Tally, state: string, cursor: int, events: seq<StateEvent>, now: int)
    requires s.downSince.Some? <==> state != RUNNING
    ensures var end := Close(FoldAll(s, events), now);
            && end.downMs == s.downMs + (if s.downSince.Some? then cursor - s.downSince.value else 0)
                             + SweptDown(state, cursor, events, now)
            && end.incidents == s.incidents + SweptIncidents(state, events)
    decreases |events|
  {
    if events != [] {
      FoldFollowsSweep(Fold(s, events[0]), events[0].toState, events[0].ts, events[1..], now);
    }
  }

  /**
    * The two computations over the same window. They agree when the container runs at its start.
    * Otherwise the fold misses the time before the first event, and counts that event as an
    * incident when it leaves the container not running; with no event at all it misses everything.
    */
  lemma {:induction false} FoldAgainstSweep(initial: string, events: seq<StateEvent>, since: int, now: int)
    ensures var folded := Close(FoldAll(NO_TALLY, events), now);
            var down, incidents := SweptDown(initial, since, events, now), SweptIncidents(initial, events);
            if initial == RUNNING then folded.downMs == down && folded.incidents == incidents
            else if events == [] then folded == NO_TALLY && down == now - since && incidents == 0
            else
              && folded.downMs == down - (events[0].ts - since)
              && folded.incidents == incidents + (if events[0].toState != RUNNING then 1 else 0)
  {
    FoldFollowsSweep(NO_TALLY, RUNNING, since, events, now);
    if initial != RUNNING && events != [] {
      var first := events[0];
      FoldFollowsSweep(Fold(NO_TALLY, first), first.toState, first.ts, events[1..], now);
    }
  }

  /**
    * The fold's downtime is the true one exactly when the container runs at the window's start or has
    * an event there.
    */
  lemma {:induction false} FoldMeasures(log: seq<StateEvent>, since: int, now: int)
    requires Sorted(log) && since < now
    ensures var events := During(log, since, now);
            Close(FoldAll(NO_TALLY, events), now).downMs == Downtime(RUNNING, log, since, now)
            <==> InitialState(RUNNING, log, since) == RUNNING || (events != [] && events[0].ts == since)
  {
    BucketMeasures(log, since, now);
    FoldAgainstSweep(InitialState(RUNNING, log, since), During(log, since, now), since, now);
  }
}
