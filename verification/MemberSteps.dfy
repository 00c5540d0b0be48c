/** What a group member does at each event: its new fields and timers, and the messages it sends. */
module MemberSteps {
  import opened MemberSpec

  const FANOUT := 8

  datatype Timer = JoinT(id: Id) | PingT | FailedT(id: Id) | ThroughT(id: Id)

  datatype Member = Member(joined: bool, view: View, timers: set<Timer>)

  datatype Message =
    | Join(src: Id, dst: Id)
    | Leave(src: Id, dst: Id)
    | JoinReq(src: Id, dst: Id, view: View)
    | Ping(src: Id, dst: Id, origin: Id, target: Id, view: View)
    | Ack(src: Id, dst: Id, target: Id, view: View)

  /** A random active member other than `self`; `self` when there is none. */
  predicate RandomActive(v: View, self: Id, x: Id) {
    if |v.active| <= 1 then x == self else x in v.active && x != self
  }

  predicate RandomSuspect(v: View, self: Id, x: Id) {
    if |v.suspect| == 0 then x == self else x in v.suspect
  }

  predicate Known(v: View, id: Id) {
    id in v.active || id in v.suspect
  }

  /** The local user joins the group through `seed`. */
  function Begun(x: Member, self: Id, seed: Id): (Member, set<Message>) {
    var v := View(if seed == self then map[self := 1] else map[], map[]);
    (Member(true, v, x.timers + {PingT} + if seed == self then {} else {JoinT(seed)}),
     if seed == self then {} else {Join(self, seed)})
  }

  /** The local user leaves; `notify` is a random active member. */
  function Ended(x: Member, self: Id, notify: Id): (Member, set<Message>) {
    (Member(false, View(map[], map[]), x.timers), if notify == self then {} else {Leave(self, notify)})
  }

  /** The messages whose views are merged into the member's own. */
  predicate Merges(x: Member, m: Message) {
    (m.Ping? && x.joined) || (m.Ack? && x.joined && Known(x.view, m.src))
  }

  /** A member after handling a message, and what it sends. */
  function Handled(x: Member, m: Message, merged: View): (Member, set<Message>) {
    var self := m.dst;
    match m
    case Join(src, _) =>
      var v := Admit(Init(x.view, self), src);
      (x.(joined := x.joined || x.view.active == map[], view := v), {JoinReq(self, src, v)})
    case Leave(src, _) =>
      (x.(view := Depart(x.view, src)), {})
    case JoinReq(src, _, v) =>
      (x.(view := v, timers := x.timers - {JoinT(src)}), {})
    case Ping(src, _, origin, target, v) =>
      if !x.joined then (x, {Leave(self, src)})
      else
        (x.(view := merged),
         {if target == self then Ack(self, src, origin, merged) else Ping(self, target, origin, target, v)})
    case Ack(src, _, target, v) =>
      if !x.joined || !Known(x.view, src) then (x, {Leave(self, src)})
      else if target == self then (x.(view := merged, timers := x.timers - {FailedT(src), ThroughT(src)}), {})
      else (x.(view := merged), {Ack(self, target, target, v)})
  }

  function Fired(x: Member, self: Id, t: Timer, chosen: Id, suspected: Id, relays: set<Id>): (Member, set<Message>) {
    var y, v := x.(timers := x.timers - {t}), x.view;
    match t
    case JoinT(id) =>
      if |v.active| > 1 then (y, {}) else (x, {Join(self, id)})
    case PingT =>
      (x.(timers := x.timers + if chosen != self then {FailedT(chosen)} else {}),
       (if chosen != self then {Ping(self, chosen, self, chosen, v)} else {})
       + (if suspected != self && suspected in v.suspect && v.suspect[suspected] > 0
          then {Ping(self, suspected, self, suspected, v)} else {}))
    case FailedT(id) =>
      (y.(timers := y.timers + {ThroughT(id)}), set r | r in relays && r != self :: Ping(self, r, self, id, v))
    case ThroughT(id) =>
      (y.(view := Distrust(v, id)), {})
  }
}
