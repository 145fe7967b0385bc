/** The events that do not come from messages, by the codes of the operations, and the TCP
    figures of a connection over every run. */
module Signals {
  import opened Primitives
  import opened Schema
  import opened Processor
  import opened Attribution
  import opened Activities

  // ---------------------------------------------------------------- events

  /** One event with this payload, in its frame. */
  ghost predicate One(cfg: ProcessorConfig, s: State, at: Sighting, truncated: bool, payload: Payload, es: seq<Event>) {
    && |es| == 1 && es[0].payload == payload
    && FrameReads(cfg, at, false, truncated, (s.sequence + 1) % 0x1_0000_0000_0000_0000, true, es[0])
  }

  /** What a signal makes the processor emit: connection states 6 to 10 and 17 to 21, with a
      duration for round trips (9) and for measured handshakes (17) and timeouts (21); start
      and end of a process (15, 16); file operations (1 to 4, 12) and page faults (14);
      time off the processor (5), samples (11) and lock waits (13). Anything else, nothing. */
  ghost predicate SignalReported(cfg: ProcessorConfig, s: State, x: Input, es: seq<Event>) {
    match x
    case ConnectionIn(at, op, ns) =>
      if 6 <= op <= 10 || 17 <= op <= 21 then
        var duration := if op == 9 || (ns > 0 && (op == 17 || op == 21)) then Some(ns / 1000) else None;
        One(cfg, s, at, false, MongodbConnection(op, at.conn, duration), es)
      else es == []
    case LifecycleIn(at, op) => if op == 15 || op == 16 then One(cfg, s, at, false, ProcessLifecycle(op), es) else es == []
    case LatencyIn(at, op, ns) =>
      if op == 5 then One(cfg, s, at, false, Profile(op, Some(ns / 1000)), es)
      else if 1 <= op <= 4 || op == 12 || op == 14 then One(cfg, s, at, false, HostIo(op, ns / 1000), es)
      else es == []
    case ProfileIn(at, op, ns) =>
      if op == 11 then One(cfg, s, at, false, Profile(op, None), es)
      else if op == 13 then One(cfg, s, at, false, Profile(op, Some(ns / 1000)), es)
      else es == []
    case _ => true
  }

  lemma SignalReports(cfg: ProcessorConfig, s: State, x: Input)
    ensures SignalReported(cfg, s, x, Step(cfg, s, x).1)
  {
    hide EventFrom, FrameReads, NextSequence, SaturateU32, WithoutConnection, WithoutProcess, OnMessage, OnDns;
    if !x.MessageIn? && !x.DnsIn? {
      forall t: State, payload: Payload | t.sequence == s.sequence
        ensures One(cfg, s, x.at, false, payload, Emit(cfg, t, Seed(x.at.now, x.at.source, false, false), payload).1)
      {
        FrameBuilt(cfg, t, Seed(x.at.now, x.at.source, false, false), x.at, true, payload);
      }
      ForgetKeepsSequence(s, x);
    }
  }

  lemma ForgetKeepsSequence(s: State, x: Input)
    ensures forall conn :: WithoutConnection(s, conn).sequence == s.sequence
    ensures forall t: State, conn :: t.sequence == s.sequence ==> WithoutConnection(t, conn).sequence == s.sequence
    ensures forall tgid :: WithoutProcess(s, tgid).sequence == s.sequence
  {
  }

  // ---------------------------------------------------------------- TCP figures

  /** Retransmissions seen on the connection since it was last reset. */
  function Retransmissions(h: seq<Input>, conn: ConnKey): nat {
    if h == [] then 0
    else
      var x, before := h[|h| - 1], Retransmissions(h[..|h| - 1], conn);
      if Resets(x, conn) then 0
      else if x.ConnectionIn? && x.at.conn == conn && x.operation == 10 then before + 1 else before
  }

  /** The last round trip measured on it, in microseconds. */
  function LastRoundTrip(h: seq<Input>, conn: ConnKey): Option<nat> {
    if h == [] then None
    else
      var x, before := h[|h| - 1], LastRoundTrip(h[..|h| - 1], conn);
      if Resets(x, conn) then None
      else if x.ConnectionIn? && x.at.conn == conn && x.operation == 9 then Some(Min(x.durationNs / 1000, 0xFFFF_FFFF))
      else before
  }

  lemma FiguresStep(cfg: ProcessorConfig, s: State, x: Input, conn: ConnKey)
    ensures var c, d := GetConnection(s, conn), GetConnection(Step(cfg, s, x).0, conn);
            var about := x.ConnectionIn? && x.at.conn == conn;
            && d.retransmits == (if Resets(x, conn) then 0
                                 else if about && x.operation == 10 then Min(c.retransmits + 1, 0xFFFF_FFFF) else c.retransmits)
            && d.srttUs == (if Resets(x, conn) then None
                            else if about && x.operation == 9 then Some(Min(x.durationNs / 1000, 0xFFFF_FFFF)) else c.srttUs)
  {
    hide EventFrom, NextSequence, OnMessage, D.DecodeDns, PruneDns;
    if x.MessageIn? {
      MessageFigures(cfg, s, x, conn);
    }
  }

  lemma MessageFigures(cfg: ProcessorConfig, s: State, x: Input, conn: ConnKey)
    requires x.MessageIn?
    ensures var c, d := GetConnection(s, conn), GetConnection(Step(cfg, s, x).0, conn);
            d.retransmits == c.retransmits && d.srttUs == c.srttUs
  {
    hide Completed, HashOf, CarriesAuthentication, Prune, ExchangeCompleted;
    var m := x.message;
    if m.responseTo == 0 {
      if m.command.Some? {
        var (t, r) := Arrived(cfg, s, x.at, m, m.command.value);
        CompletedTables(cfg, t, r, None);
        AuthKeepsFigures(r, GetConnection(t, r.conn), None);
      }
    } else {
      var k := PendingKey(x.at.conn, m.responseTo);
      if k in s.pending {
        var r := s.pending[k];
        var reply := Some(Reply(m, Saturating(x.at.now, r.at) / 1000));
        CompletedTables(cfg, s.(pending := s.pending - {k}), r, reply);
        AuthKeepsFigures(r, GetConnection(s, r.conn), reply);
      }
    }
  }

  lemma AuthKeepsFigures(r: Request, c: Connection, reply: Option<Reply>)
    ensures var d := Authenticated(r, c, reply); d.retransmits == c.retransmits && d.srttUs == c.srttUs
  {
  }

  /** In every run the figures kept for a connection are those of its history since the last
      reset, in 32 bits. */
  lemma {:induction false} FiguresRun(cfg: ProcessorConfig, h: seq<Input>, conn: ConnKey)
    requires Run(cfg, h)
    ensures var c := GetConnection(After(cfg, h), conn);
            c.retransmits == Min(Retransmissions(h, conn), 0xFFFF_FFFF) && c.srttUs == LastRoundTrip(h, conn)
    decreases |h|
  {
    hide Step, Possible, Resets;
    if h == [] {
    } else {
      FiguresRun(cfg, h[..|h| - 1], conn);
      FiguresStep(cfg, After(cfg, h[..|h| - 1]), h[|h| - 1], conn);
    }
  }
}
