/** A group of broadcast processes over a network that may delay, reorder, duplicate or lose copies. */
module BroadcastSystem {
  import opened BroadcastSpec

  /** One best-effort broadcast: a copy of `msg` from `src` to every process. */
  datatype Cast = Cast(src: nat, msg: Message)

  /** A copy on the network. */
  datatype Packet = Packet(src: nat, dst: nat, msg: Message)

  /** A process with its history: what its user typed and what was sent for it, its log at the moment of each SEND,
      the copies received, and the texts shown to the user. */
  datatype Member = Member(p: Proc, typed: seq<string>, sent: seq<Message>, past: seq<seq<Message>>,
                           got: set<Cast>, shown: seq<string>)

  /** `casts` lists every broadcast ever made, in order; `wire` holds the copies the handlers sent. */
  datatype System = System(members: seq<Member>, casts: seq<Cast>, wire: set<Packet>)

  datatype Step =
    | Send(at: nat, text: string)
    | Receive(at: nat, cast: Cast, ms: seq<Message>)

  function Start(n: nat): System {
    System(seq(n, i requires 0 <= i < n => Member(Initial(i, n), [], [], [], {}, [])), [], {})
  }

  ghost predicate Enabled(g: System, step: Step) {
    && step.at < |g.members|
    && (step.Receive? ==>
          && Packet(step.cast.src, step.at, step.cast.msg) in g.wire
          && Delivers(g.members[step.at].p, step.cast.src, step.cast.msg, step.ms))
  }

  function SendBy(x: Member, text: string): Member {
    var m := Message(text, x.p.id, x.p.counter, x.p.state);
    x.(p := x.p.(counter := x.p.counter + 1), typed := x.typed + [text], sent := x.sent + [m],
       past := x.past + [x.p.log])
  }

  function ReceiveBy(x: Member, cast: Cast, ms: seq<Message>): Member {
    x.(p := After(x.p, cast.src, cast.msg, ms), got := x.got + {cast}, shown := x.shown + Texts(ms))
  }

  function Packets(src: nat, copies: seq<Copy>): set<Packet> {
    set c | c in copies :: Packet(src, c.dst, c.msg)
  }

  function Apply(g: System, step: Step): System
    requires step.at < |g.members|
  {
    var x, n := g.members[step.at], |g.members|;
    match step
    case Send(at, text) =>
      var m := Message(text, x.p.id, x.p.counter, x.p.state);
      System(g.members[at := SendBy(x, text)], g.casts + [Cast(at, m)], g.wire + Packets(at, Copies(m, n)))
    case Receive(at, cast, ms) =>
      var relays := Relays(x.p, cast.msg.Hash(), cast.src);
      System(g.members[at := ReceiveBy(x, cast, ms)],
             g.casts + if relays then [Cast(at, cast.msg)] else [],
             g.wire + Packets(at, if relays then Copies(cast.msg, n) else []))
  }

  /** `run` lists the states of a run of `n` processes, `steps` what happens between them. */
  ghost predicate IsRun(n: nat, run: seq<System>, steps: seq<Step>) {
    && |run| == |steps| + 1 && run[0] == Start(n)
    && forall k | 0 <= k < |steps| :: Enabled(run[k], steps[k]) && run[k + 1] == Apply(run[k], steps[k])
  }

  // ---------------------------------------------------------------- the invariant

  function Zeros(n: nat): seq<nat> {
    seq(n, _ => 0)
  }

  ghost predicate Known(g: System, h: Hash) {
    h.0 < |g.members| && h.1 < |g.members[h.0].sent|
  }

  ghost function Named(g: System, h: Hash): Message
    requires Known(g, h)
  {
    g.members[h.0].sent[h.1]
  }

  /** The message is one that its author's user sent, unaltered. */
  ghost predicate Authentic(g: System, m: Message) {
    Known(g, m.Hash()) && Named(g, m.Hash()) == m
  }

  /** The processes that have broadcast `m`. */
  ghost function Casters(g: System, m: Message): set<nat> {
    set j | 0 <= j < |g.members| && Cast(j, m) in g.casts
  }

  ghost predicate NetOk(g: System) {
    forall c | c in g.casts :: c.src < |g.members| && Authentic(g, c.msg)
  }

  /** The network holds a copy of each broadcast for each process, and nothing else. */
  ghost predicate WireOk(g: System) {
    && (forall p | p in g.wire :: p.dst < |g.members| && Cast(p.src, p.msg) in g.casts)
    && forall c, d: nat | c in g.casts && d < |g.members| :: Packet(c.src, d, c.msg) in g.wire
  }

  ghost predicate SentOk(g: System, x: Member, i: nat) {
    && x.p.id == i && x.p.counter == |x.typed| == |x.sent| == |x.past|
    && (forall c | 0 <= c < |x.sent| :: x.sent[c].text == x.typed[c])
    && forall c | 0 <= c < |x.sent| ::
         && x.sent[c].Hash() == (i, c) && Cast(i, x.sent[c]) in g.casts
         && x.past[c] <= x.p.log && x.sent[c].state == Advance(Zeros(|g.members|), x.past[c])
  }

  /** The log replays from the empty state to the present one, and is all that was delivered. */
  ghost predicate LogOk(g: System, x: Member) {
    && InTurn(Zeros(|g.members|), x.p.log) && x.p.state == Advance(Zeros(|g.members|), x.p.log)
    && x.p.delivered == Hashes(x.p.log)
    && forall m | m in x.p.log :: Authentic(g, m)
  }

  ghost predicate CastersOk(g: System, x: Member, i: nat) {
    forall h | h in x.p.casters :: i in x.p.casters[h] && Known(g, h) && x.p.casters[h] <= Casters(g, Named(g, h))
  }

  ghost predicate BufferOk(g: System, x: Member) {
    && Settled(x.p)
    && forall h | h in x.p.buffer ::
         && Known(g, h) && x.p.buffer[h] == Named(g, h)
         && h !in x.p.delivered && h in x.p.casters && 2 * |x.p.casters[h]| >= |g.members|
  }

  /** A message that has its half of the group and is not delivered is waiting in the buffer. */
  ghost predicate PendingOk(g: System, x: Member) {
    forall h | h in x.p.casters && h !in x.p.delivered && 2 * |x.p.casters[h]| >= |g.members| :: h in x.p.buffer
  }

  /** A received copy was sent, has been relayed, and until delivery counts its sender. */
  ghost predicate GotOk(g: System, x: Member, i: nat) {
    forall c | c in x.got ::
      && c in g.casts && Cast(i, c.msg) in g.casts
      && (c.msg.Hash() in x.p.delivered || (c.msg.Hash() in x.p.casters && c.src in x.p.casters[c.msg.Hash()]))
  }

  /** Everything delivered had been broadcast by half of the group. */
  ghost predicate BackedOk(g: System, x: Member) {
    forall m | m in x.p.log :: 2 * |Casters(g, m)| >= |g.members|
  }

  ghost predicate RelayOk(g: System, x: Member, i: nat) {
    forall m: Message :: multiset(g.casts)[Cast(i, m)] <=
      (if m.sender == i then 1 else 0)
      + (if m.Hash() in x.p.casters then 1 else 0) + (if m.Hash() in x.p.delivered then 1 else 0)
  }

  /** The user has been shown the texts of the log. */
  ghost predicate ShownOk(x: Member) {
    x.shown == Texts(x.p.log)
  }

  ghost predicate MemberOk(g: System, x: Member, i: nat) {
    && SentOk(g, x, i) && LogOk(g, x) && CastersOk(g, x, i) && BufferOk(g, x)
    && PendingOk(g, x) && GotOk(g, x, i) && BackedOk(g, x) && RelayOk(g, x, i) && ShownOk(x)
  }

  ghost predicate Inv(g: System) {
    NetOk(g) && WireOk(g) && forall i | 0 <= i < |g.members| :: MemberOk(g, g.members[i], i)
  }
}
