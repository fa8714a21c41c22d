/** Runs of requests as they arrive: what clients put into their headers does
    not change what the gate does. */
module GateClients {
  import opened ClientIP
  import opened Gate
  import opened GateHandler
  import opened GateRuns
  import RateLimitRuns

  /** A request as it arrives, and what it meets. */
  datatype Arrival = Arrival(env: Env, inc: Incoming)

  /** The handler serves the arrival as this event. */
  ghost predicate IsServedAs<IP(!new)>(proxies: Proxies<IP>, a: Arrival, e: Event) {
    && e.env == a.env && e.r == a.inc.From(e.r.ip)
    && proxies.IsClient(a.inc.remote, a.inc.headers, e.r.ip)
  }

  /** The handler serves these arrivals as these events. */
  ghost predicate ServedAs<IP(!new)>(proxies: Proxies<IP>, arrivals: seq<Arrival>, events: seq<Event>) {
    && |arrivals| == |events|
    && forall i :: 0 <= i < |events| ==> IsServedAs(proxies, arrivals[i], events[i])
  }

  /** The same arrival, but for what its client put into the headers. */
  ghost predicate SpoofOf<IP(!new)>(proxies: Proxies<IP>, spoofed: Arrival, a: Arrival) {
    && spoofed == a.(inc := a.inc.(headers := spoofed.inc.headers))
    && proxies.Spoofs(a.inc.remote, spoofed.inc.headers, a.inc.headers)
  }

  lemma SpoofIsServedAs<IP(!new)>(proxies: Proxies<IP>, spoofed: Arrival, a: Arrival, e: Event, e': Event)
    requires SpoofOf(proxies, spoofed, a) && IsServedAs(proxies, a, e) && IsServedAs(proxies, spoofed, e')
    ensures e' == e
  {
    proxies.SpoofingChangesNothing(a.inc.remote, spoofed.inc.headers, a.inc.headers, e'.r.ip);
    proxies.ClientIsDetermined(a.inc.remote, a.inc.headers, e.r.ip, e'.r.ip);
  }

  /** If every client adds to its headers what it likes, the gate still serves exactly the same run, with
      the same answers. */
  lemma SpoofedRunIsSame<IP(!new)>(proxies: Proxies<IP>, arrivals: seq<Arrival>, spoofed: seq<Arrival>,
                                   events: seq<Event>, events': seq<Event>)
    requires ServedAs(proxies, arrivals, events) && ServedAs(proxies, spoofed, events')
    requires |spoofed| == |arrivals|
    requires forall i :: 0 <= i < |arrivals| ==> SpoofOf(proxies, spoofed[i], arrivals[i])
    ensures events' == events
  {
    forall i | 0 <= i < |events| ensures events'[i] == events[i] {
      SpoofIsServedAs(proxies, spoofed[i], arrivals[i], events[i], events'[i]);
    }
  }

  /** So within any window no client gets more 401s than the count allows, whatever addresses it claims to
      forward for. */
  lemma SpoofingGainsNothing<IP(!new)>(proxies: Proxies<IP>, arrivals: seq<Arrival>, spoofed: seq<Arrival>,
                                       events: seq<Event>, events': seq<Event>,
                                       cfg: Config, t0: int, who: string, skew: int, lo: int)
    requires ServedAs(proxies, arrivals, events) && ServedAs(proxies, spoofed, events')
    requires |spoofed| == |arrivals|
    requires forall i :: 0 <= i < |arrivals| ==> SpoofOf(proxies, spoofed[i], arrivals[i])
    requires RateOf(cfg, ByIP).count > 0 && 0 <= skew && RateLimitRuns.WithinSkew(FailureCalls(events, ByIP), skew)
    ensures Within(cfg, t0, events', ByIP, who, lo, lo + (RateOf(cfg, ByIP).window - skew))
  {
    SpoofedRunIsSame(proxies, arrivals, spoofed, events, events');
    FailuresAreBounded(cfg, t0, events, ByIP, who, skew, lo);
  }
}
