/** The per-peer rate limiter: a fixed window that restarts on the first message after
    it ran out, and the bound this gives on every sliding window. */
module RateLimit {

  /** A maximum of 0 means unlimited. */
  datatype Config = Config(maxBytes: nat, windowTicks: nat, maxMessages: nat)

  datatype Counters = Counters(bytes: nat, messages: nat, start: nat)

  datatype Event = Event(tick: nat, bytes: nat)

  function Restarted(c: Config, s: Counters, tick: nat): Counters {
    if tick >= s.start + c.windowTicks then Counters(0, 0, tick) else s
  }

  predicate Within(limit: nat, used: nat) {
    limit == 0 || used <= limit
  }

  predicate Allowed(c: Config, s: Counters, e: Event) {
    var w := Restarted(c, s, e.tick);
    Within(c.maxBytes, w.bytes + e.bytes) && Within(c.maxMessages, w.messages + 1)
  }

  function Next(c: Config, s: Counters, e: Event): Counters {
    var w := Restarted(c, s, e.tick);
    if Allowed(c, s, e) then Counters(w.bytes + e.bytes, w.messages + 1, w.start) else w
  }

  class RateLimiter {
    var bytesInWindow: nat
    var messagesInWindow: nat
    var windowStartTick: nat

    function State(): Counters
      reads this
    {
      Counters(bytesInWindow, messagesInWindow, windowStartTick)
    }

    constructor ()
      ensures State() == Counters(0, 0, 0)
    {
      bytesInWindow, messagesInWindow, windowStartTick := 0, 0, 0;
    }

    method Reset(tick: nat)
      modifies this
      ensures State() == Counters(0, 0, tick)
    {
      bytesInWindow, messagesInWindow, windowStartTick := 0, 0, tick;
    }

    /** Count a message if the window has room for it. */
    method CheckAndConsume(tick: nat, config: Config, bytes: nat) returns (ok: bool)
      modifies this
      ensures State() == Next(config, old(State()), Event(tick, bytes))
      ensures ok <==> Allowed(config, old(State()), Event(tick, bytes))
      ensures !ok ==> State() == Restarted(config, old(State()), tick)
      ensures var over := old(windowStartTick) + config.windowTicks <= tick;
        var bytes0, messages0 := if over then 0 else old(bytesInWindow), if over then 0 else old(messagesInWindow);
        && windowStartTick == (if over then tick else old(windowStartTick))
        && (ok <==>
          && (config.maxBytes == 0 || bytes0 + bytes <= config.maxBytes)
          && (config.maxMessages == 0 || messages0 + 1 <= config.maxMessages))
        && bytesInWindow == bytes0 + (if ok then bytes else 0)
        && messagesInWindow == messages0 + (if ok then 1 else 0)
    {
      if tick >= windowStartTick + config.windowTicks {
        Reset(tick);
      }
      if config.maxBytes > 0 && bytesInWindow + bytes > config.maxBytes {
        return false;
      }
      if config.maxMessages > 0 && messagesInWindow + 1 > config.maxMessages {
        return false;
      }
      bytesInWindow := bytesInWindow + bytes;
      messagesInWindow := messagesInWindow + 1;
      return true;
    }
  }

  // --------------------------------------------------------------------- whole runs

  datatype Kind = Bytes | Messages

  function Amount(kind: Kind, e: Event): nat {
    if kind.Bytes? then e.bytes else 1
  }

  function Limit(kind: Kind, c: Config): nat {
    if kind.Bytes? then c.maxBytes else c.maxMessages
  }

  function Used(kind: Kind, s: Counters): nat {
    if kind.Bytes? then s.bytes else s.messages
  }

  function After(c: Config, events: seq<Event>): Counters {
    if events == [] then Counters(0, 0, 0) else Next(c, After(c, events[..|events| - 1]), events[|events| - 1])
  }

  /** The messages that were let through, in order. */
  function Accepted(c: Config, events: seq<Event>): seq<Event> {
    if events == [] then []
    else
      var front, last := events[..|events| - 1], events[|events| - 1];
      if Allowed(c, After(c, front), last) then Accepted(c, front) + [last] else Accepted(c, front)
  }

  /** How much of `s` fell in the ticks from `lo` up to, not including, `hi`. */
  function Sum(kind: Kind, s: seq<Event>, lo: nat, hi: nat): nat {
    if s == [] then 0
    else
      Sum(kind, s[..|s| - 1], lo, hi) +
      if lo <= s[|s| - 1].tick < hi then Amount(kind, s[|s| - 1]) else 0
  }

  function LastTick(events: seq<Event>): nat {
    if events == [] then 0 else events[|events| - 1].tick
  }

  ghost predicate Chronological(events: seq<Event>) {
    forall i, j :: 0 <= i < j < |events| ==> events[i].tick <= events[j].tick
  }

  lemma SumNext(kind: Kind, s: seq<Event>, e: Event, lo: nat, hi: nat)
    ensures Sum(kind, s + [e], lo, hi) == Sum(kind, s, lo, hi) + if lo <= e.tick < hi then Amount(kind, e) else 0
  {
    assert (s + [e])[..|s|] == s;
  }

  /** What is known after a run: no interval as long as a window holds too much. */
  ghost predicate Bounded(kind: Kind, c: Config, s: Counters, accepted: seq<Event>, now: nat) {
    && s.start <= now < s.start + c.windowTicks && Used(kind, s) <= Limit(kind, c)
    && forall lo: nat, hi: nat | hi <= lo + c.windowTicks :: BoundedIn(kind, c, s, accepted, now, lo, hi)
  }

  /** At most twice the limit in any such interval; at most one limit beside what the
      current window counted, when the interval reaches into it; at most what it counted,
      when the interval starts in it; and nothing later than now. */
  ghost predicate BoundedIn(kind: Kind, c: Config, s: Counters, accepted: seq<Event>, now: nat, lo: nat, hi: nat) {
    && Sum(kind, accepted, lo, hi) <= 2 * Limit(kind, c)
    && (s.start < hi ==> Sum(kind, accepted, lo, hi) <= Limit(kind, c) + Used(kind, s))
    && (s.start <= lo ==> Sum(kind, accepted, lo, hi) <= Used(kind, s))
    && (now < lo ==> Sum(kind, accepted, lo, hi) == 0)
  }

  lemma BoundedStart(kind: Kind, c: Config)
    requires 0 < c.windowTicks
    ensures Bounded(kind, c, Counters(0, 0, 0), [], 0)
  {
  }

  function Appended(c: Config, s: Counters, accepted: seq<Event>, e: Event): seq<Event> {
    if Allowed(c, s, e) then accepted + [e] else accepted
  }

  lemma BoundedInNext(kind: Kind, c: Config, s: Counters, accepted: seq<Event>, now: nat, e: Event, lo: nat, hi: nat)
    requires Bounded(kind, c, s, accepted, now) && now <= e.tick && 0 < c.windowTicks && 0 < Limit(kind, c)
    requires hi <= lo + c.windowTicks
    ensures Used(kind, Next(c, s, e)) <= Limit(kind, c)
    ensures BoundedIn(kind, c, Next(c, s, e), Appended(c, s, accepted, e), e.tick, lo, hi)
  {
    SumNext(kind, accepted, e, lo, hi);
    hide Sum;
    assert BoundedIn(kind, c, s, accepted, now, lo, hi);
  }

  lemma BoundedNext(kind: Kind, c: Config, s: Counters, accepted: seq<Event>, now: nat, e: Event)
    requires Bounded(kind, c, s, accepted, now) && now <= e.tick && 0 < c.windowTicks && 0 < Limit(kind, c)
    ensures Bounded(kind, c, Next(c, s, e), Appended(c, s, accepted, e), e.tick)
  {
    var s', accepted' := Next(c, s, e), Appended(c, s, accepted, e);
    BoundedInNext(kind, c, s, accepted, now, e, 0, 0);
    hide BoundedIn, Appended;
    forall lo: nat, hi: nat | hi <= lo + c.windowTicks
      ensures BoundedIn(kind, c, s', accepted', e.tick, lo, hi)
    {
      BoundedInNext(kind, c, s, accepted, now, e, lo, hi);
    }
  }

  lemma {:induction false} RunIsBounded(kind: Kind, c: Config, events: seq<Event>)
    requires Chronological(events) && 0 < c.windowTicks && 0 < Limit(kind, c)
    ensures Bounded(
      kind, c, After(c, events), Accepted(c, events), LastTick(events))
  {
    if events == [] {
      BoundedStart(kind, c);
    } else {
      var front, last := events[..|events| - 1], events[|events| - 1];
      RunIsBounded(kind, c, front);
      hide Bounded;
      BoundedNext(kind, c, After(c, front), Accepted(c, front), LastTick(front), last);
    }
  }

  /** Over any interval as long as the window, wherever it starts, a peer gets through at
      most twice the configured maximum. */
  lemma SlidingWindowBound(kind: Kind, c: Config, events: seq<Event>, lo: nat)
    requires Chronological(events) && 0 < c.windowTicks && 0 < Limit(kind, c)
    ensures Sum(kind, Accepted(c, events), lo, lo + c.windowTicks) <= 2 * Limit(kind, c)
  {
    RunIsBounded(kind, c, events);
    assert BoundedIn(kind, c, After(c, events), Accepted(c, events), LastTick(events), lo, lo + c.windowTicks);
  }

  /** Within the limiter's own window, at most the maximum. */
  lemma OwnWindowBound(kind: Kind, c: Config, events: seq<Event>)
    requires Chronological(events) && 0 < c.windowTicks && 0 < Limit(kind, c)
    ensures var start := After(c, events).start;
      Sum(kind, Accepted(c, events), start, start + c.windowTicks) <= Limit(kind, c)
  {
    RunIsBounded(kind, c, events);
    var start := After(c, events).start;
    assert BoundedIn(kind, c, After(c, events), Accepted(c, events), LastTick(events), start, start + c.windowTicks);
  }

  /** Twice is reached: a full window's worth just before the restart and one just after. */
  lemma TwiceIsReached(c: Config)
    requires 1 < c.windowTicks && 0 < c.maxBytes && c.maxMessages == 0
    ensures var events := [Event(c.windowTicks - 1, c.maxBytes), Event(c.windowTicks, c.maxBytes)];
      var lo := c.windowTicks - 1;
      && Chronological(events) && Accepted(c, events) == events
      && Sum(Bytes, Accepted(c, events), lo, lo + c.windowTicks) == 2 * c.maxBytes
  {
    var e, f := Event(c.windowTicks - 1, c.maxBytes), Event(c.windowTicks, c.maxBytes);
    var lo := c.windowTicks - 1;
    assert [e, f][..1] == [e] && [e][..0] == [];
    assert After(c, []) == Counters(0, 0, 0) && Allowed(c, Counters(0, 0, 0), e);
    assert After(c, [e]) == Counters(c.maxBytes, 1, 0) && Accepted(c, [e]) == [] + [e];
    assert Allowed(c, After(c, [e]), f);
    assert Accepted(c, [e, f]) == [e] + [f] && [e] + [f] == [e, f];
    SumNext(Bytes, [], e, lo, lo + c.windowTicks);
    assert [] + [e] == [e];
    SumNext(Bytes, [e], f, lo, lo + c.windowTicks);
  }
}
