/** One rate limiter for each tunnel, with limits of its own or the defaults. */
module TunnelRateLimiter {
  import opened RateLimiter
  import opened RateTheorems
  import opened Wrappers

  datatype Limiter = Limiter(config: Config, buckets: map<string, Bucket>)

  datatype Event =
    | SetLimit(id: string, rate: real, burst: nat)
    | Request(id: string, now: int)
    | Remove(id: string)
    | ClearAll

  /** The limiter a request finds: the tunnel's own, or a new one with the default limits. */
  function Found(defaults: Config, limiters: map<string, Limiter>, id: string): Limiter {
    if id in limiters then limiters[id]
    else Limiter(Configured(defaults.rate, defaults.burst, defaults.ticks), map[])
  }

  function Requested(l: Limiter, id: string, now: int): Limiter {
    l.(buckets := AfterRequest(l.config, l.buckets, id, now))
  }

  function AfterEvent(defaults: Config, limiters: map<string, Limiter>, e: Event): map<string, Limiter> {
    match e
    case SetLimit(id, rate, burst) => limiters[id := Limiter(Configured(rate, burst, defaults.ticks), map[])]
    case Request(id, now) => limiters[id := Requested(Found(defaults, limiters, id), id, now)]
    case Remove(id) => limiters - {id}
    case ClearAll => map[]
  }

  /** Whether a tunnel's request is admitted. */
  predicate Admits(defaults: Config, limiters: map<string, Limiter>, id: string, now: int) {
    var l := Found(defaults, limiters, id);
    Grants(l.config, l.buckets, id, now)
  }

  class TunnelRateLimiter {
    const defaultRate: real
    const defaultBurst: nat
    const ticks: Ticks
    var limiters: map<string, RateLimiter>
    ghost var view: map<string, Limiter>

    ghost function Defaults(): Config {
      Config(defaultRate, defaultBurst, ticks)
    }

    ghost predicate Mirrors(id: string)
      reads this, limiters.Values
    {
      && id in limiters && id in view
      && view[id] == Limiter(limiters[id].Settings(), limiters[id].buckets)
      && limiters[id].ticks == ticks
    }

    ghost predicate Distinct()
      reads this
    {
      forall id, other :: id in limiters && other in limiters && id != other ==> limiters[id] != limiters[other]
    }

    /** The limiters are distinct objects, and the view is what they hold. */
    ghost predicate Valid()
      reads this, limiters.Values
    {
      && view.Keys == limiters.Keys
      && (forall id {:trigger Mirrors(id)} :: id in limiters ==> Mirrors(id))
      && Distinct()
    }

    constructor (rate: real, burst: nat, ticksPerMicrosecond: Ticks)
      ensures Valid() && Defaults() == Config(rate, burst, ticksPerMicrosecond) && view == map[] && limiters == map[]
    {
      defaultRate, defaultBurst, ticks := rate, burst, ticksPerMicrosecond;
      limiters, view := map[], map[];
    }

    method SetTunnelLimit(id: string, rate: real, burst: nat)
      requires Valid()
      modifies this
      ensures Valid() && view == AfterEvent(Defaults(), old(view), SetLimit(id, rate, burst))
    {
      var limiter := new RateLimiter(rate, burst, ticks);
      limiters := limiters[id := limiter];
      view := view[id := Limiter(limiter.Settings(), limiter.buckets)];
      assert forall other {:trigger Mirrors(other)} :: other in limiters && other != id ==> old(Mirrors(other));
    }

    /** The limiter of a tunnel, created with the defaults if there is none. */
    method FindOrCreate(id: string) returns (limiter: RateLimiter)
      requires Valid()
      modifies this
      ensures Valid() && view == old(view)[id := Found(Defaults(), old(view), id)]
      ensures id in limiters && limiters[id] == limiter && (limiter in old(limiters.Values) || fresh(limiter))
    {
      if id in limiters {
        limiter := limiters[id];
      } else {
        limiter := new RateLimiter(defaultRate, defaultBurst, ticks);
        limiters := limiters[id := limiter];
        view := view[id := Limiter(limiter.Settings(), limiter.buckets)];
        assert forall other {:trigger Mirrors(other)} :: other in limiters && other != id ==> old(Mirrors(other));
      }
    }

    method AllowRequest(id: string, now: int) returns (allowed: bool)
      requires Valid()
      modifies this, limiters.Values
      ensures Valid() && view == AfterEvent(Defaults(), old(view), Request(id, now))
      ensures allowed == Admits(Defaults(), old(view), id, now)
    {
      hide AfterRequest, Grants, Found, RateLimiter.Settings;
      var limiter := FindOrCreate(id);
      label found:
      assert Mirrors(id);
      assert forall other {:trigger Mirrors(other)} :: other in limiters && other != id ==> limiters[other] != limiter;
      allowed := limiter.AllowRequest(id, now);
      view := view[id := Limiter(limiter.Settings(), limiter.buckets)];
      KeepMirrors@found(id);
    }

    /** A change to one tunnel's limiter and view leaves the others mirrored. */
    twostate lemma KeepMirrors(id: string)
      requires old(Valid()) && limiters == old(limiters) && id in limiters && Mirrors(id)
      requires view.Keys == old(view.Keys)
      requires forall other {:trigger Mirrors(other)} :: other in limiters && other != id ==>
                 view[other] == old(view[other]) && unchanged(limiters[other])
      ensures Valid()
    {
      forall other | other in limiters
        ensures Mirrors(other)
      {
        assert old(Mirrors(other));
      }
      assert old(Distinct());
    }

    method RemoveTunnel(id: string)
      requires Valid()
      modifies this
      ensures Valid() && view == AfterEvent(Defaults(), old(view), Remove(id))
    {
      limiters := limiters - {id};
      view := view - {id};
      assert forall other {:trigger Mirrors(other)} :: other in limiters ==> old(Mirrors(other));
    }

    method Clear()
      requires Valid()
      modifies this
      ensures Valid() && view == AfterEvent(Defaults(), old(view), ClearAll)
    {
      limiters, view := map[], map[];
    }
  }

  function Run(defaults: Config, events: seq<Event>): map<string, Limiter> {
    if events == [] then map[] else AfterEvent(defaults, Run(defaults, events[..|events| - 1]), events[|events| - 1])
  }

  // ----- each tunnel by itself -----

  predicate Concerns(e: Event, id: string) {
    e.ClearAll? || e.id == id
  }

  function Own(events: seq<Event>, id: string): seq<Event> {
    if events == [] then []
    else
      var before, e := Own(events[..|events| - 1], id), events[|events| - 1];
      if Concerns(e, id) then before + [e] else before
  }

  lemma RunAppend(defaults: Config, events: seq<Event>, e: Event)
    ensures Run(defaults, events + [e]) == AfterEvent(defaults, Run(defaults, events), e)
  {
    var all := events + [e];
    assert all[..|all| - 1] == events;
  }

  /** A tunnel's limiter after a run is the one after the tunnel's own events and the clears alone. */
  lemma {:induction false} TunnelStandsAlone(defaults: Config, events: seq<Event>, id: string)
    ensures id in Run(defaults, events) <==> id in Run(defaults, Own(events, id))
    ensures id in Run(defaults, events) ==> Run(defaults, events)[id] == Run(defaults, Own(events, id))[id]
  {
    if events != [] {
      var front, e := events[..|events| - 1], events[|events| - 1];
      TunnelStandsAlone(defaults, front, id);
      RunAppend(defaults, Own(front, id), e);
      hide Requested, Configured;
    }
  }

  /** No event of another tunnel changes the answer to a request. */
  lemma DecisionsStandAlone(defaults: Config, events: seq<Event>, id: string, now: int)
    ensures Admits(defaults, Run(defaults, events), id, now)
            == Admits(defaults, Run(defaults, Own(events, id)), id, now)
  {
    TunnelStandsAlone(defaults, events, id);
    hide Grants, Configured, Run, Own;
  }

  /** The limits in force for a tunnel and its requests since they took force. */
  datatype Span = Span(config: Config, times: seq<int>)

  function Since(defaults: Config, events: seq<Event>, id: string): Option<Span> {
    if events == [] then None
    else
      var before := Since(defaults, events[..|events| - 1], id);
      match events[|events| - 1]
      case SetLimit(k, rate, burst) =>
        if k == id then Some(Span(Configured(rate, burst, defaults.ticks), [])) else before
      case Request(k, now) =>
        if k == id then Some(Extended(InForce(defaults, before), now)) else before
      case Remove(k) => if k == id then None else before
      case ClearAll => None
  }

  function InForce(defaults: Config, span: Option<Span>): Span {
    if span.Some? then span.value else Span(Configured(defaults.rate, defaults.burst, defaults.ticks), [])
  }

  function Extended(span: Span, now: int): Span {
    span.(times := span.times + [now])
  }

  function LimiterOf(span: Span, id: string): Limiter {
    Limiter(span.config, if span.times == [] then map[] else map[id := Replay(span.config, span.times).bucket])
  }

  lemma RequestExtends(span: Span, id: string, now: int)
    ensures Requested(LimiterOf(span, id), id, now) == LimiterOf(Extended(span, now), id)
  {
    hide Refill, Spend, Replay;
    ReplayAppend(span.config, span.times, now);
  }

  lemma {:induction false} LimiterIsSpan(defaults: Config, events: seq<Event>, id: string)
    ensures id in Run(defaults, events) <==> Since(defaults, events, id).Some?
    ensures id in Run(defaults, events) ==>
              Run(defaults, events)[id] == LimiterOf(Since(defaults, events, id).value, id)
  {
    hide LimiterOf, Requested, Extended, Configured;
    if events != [] {
      var front, e := events[..|events| - 1], events[|events| - 1];
      LimiterIsSpan(defaults, front, id);
      var span := InForce(defaults, Since(defaults, front, id));
      EmptySpan(span.config, id);
      if e.Request? { RequestExtends(span, id, e.now); }
      if e.SetLimit? { EmptySpan(Configured(e.rate, e.burst, defaults.ticks), id); }
    }
  }

  lemma EmptySpan(c: Config, id: string)
    ensures LimiterOf(Span(c, []), id) == Limiter(c, map[])
  {
  }

  /** In every run, a tunnel's request is denied exactly when admitting it would overfill a window of
      its requests since its limits took force, under those limits. */
  lemma TunnelDeniesExactlyWhenOverWindow(defaults: Config, events: seq<Event>, id: string, now: int)
    requires defaults.ticks == 1 && Sorted(InForce(defaults, Since(defaults, events, id)).times + [now])
    ensures var span := InForce(defaults, Since(defaults, events, id));
            var times := span.times + [now];
            !Admits(defaults, Run(defaults, events), id, now) <==>
              exists i :: 0 <= i <= |span.times|
                          && OverWindow(span.config, times, Replay(span.config, times).admitted, i)
  {
    hide Replay, Refill, OverWindow, Run, Since, Configured, Sorted;
    LimiterIsSpan(defaults, events, id);
    LimitsAreValid(defaults, events, id);
    var span := InForce(defaults, Since(defaults, events, id));
    EmptySpan(span.config, id);
    ReplayAppend(span.config, span.times, now);
    DeniedExactlyWhenOverWindow(span.config, span.times, now);
  }

  lemma {:induction false} LimitsAreValid(defaults: Config, events: seq<Event>, id: string)
    ensures var c := InForce(defaults, Since(defaults, events, id)).config;
            Valid(c) && c.ticks == defaults.ticks
  {
    if events != [] { LimitsAreValid(defaults, events[..|events| - 1], id); }
  }
}
