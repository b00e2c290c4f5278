/** The channel client's subscribe, receive and unsubscribe protocol over a FIFO link to the server. */
module Channel {
  import opened Words
  import opened Errors
  import opened ChlPacket

  datatype Cht = None | Send | Rcv | Bidi
  datatype Kind = SessionStart | DeviceConnect | Ping | GetTargets | UnlockSetKey | Subscribe | Unsubscribe

  /** What arrives from the server: the reply to request id, with the error code it leads to,
      or the packet of a device message. */
  datatype Item = Answer(id: nat, kind: Kind, err: nat) | Message(m: seq<Word>)

  /** A request and the packet read as its reply. */
  datatype Exchange = Exchange(id: nat, got: Item)

  /** inbox: sent by the server, not yet read. sub: the subscription as the server knows it.
      pushed, taken: device messages sent to, and read by, the client. */
  datatype Link = Link(connected: bool, inbox: seq<Item>, sub: Cht, issued: nat, log: seq<Exchange>,
                       pushed: seq<seq<Word>>, taken: seq<seq<Word>>)

  /** What happens around a call: messages the device sends before the server handles the request, the
      server's verdict, whether its reply is there before the time-out, and how many packets an
      unsubscribe reads before it gives up. */
  datatype Env = Env(before: seq<seq<Word>>, err: nat, timely: bool, patience: nat)

  predicate Receives(c: Cht) {
    c == Rcv || c == Bidi
  }

  function Messages(ms: seq<seq<Word>>): (items: seq<Item>)
    ensures |items| == |ms|
  {
    seq(|ms|, i requires 0 <= i < |ms| => Message(ms[i]))
  }

  /** The server forwards device messages only to receive and bidi subscribers. */
  function Push(l: Link, ms: seq<seq<Word>>): Link {
    if Receives(l.sub) then l.(inbox := l.inbox + Messages(ms), pushed := l.pushed + ms) else l
  }

  function Read(l: Link): Link
    requires l.inbox != []
  {
    var it := l.inbox[0];
    l.(inbox := l.inbox[1..], taken := if it.Message? then l.taken + [it.m] else l.taken)
  }

  /** The server's subscription after it has handled a request. */
  function Served(l: Link, kind: Kind, cht: Cht, err: nat): Link {
    if kind == Subscribe && err == ERR_NONE then l.(sub := cht)
    else if kind == Unsubscribe then l.(sub := None)
    else l
  }

  /** Mailbox execute: one packet out, one packet in. */
  function Execute(l: Link, kind: Kind, cht: Cht, env: Env): (r: (Link, bool, Item))
  {
    if !l.connected then (l, false, Message([]))
    else
      var id := l.issued;
      var p := Push(l, env.before);
      var s := Served(p, kind, cht, env.err).(issued := id + 1);
      var reply := Answer(id, kind, env.err);
      if s.inbox == [] && !env.timely then (s.(inbox := [reply]), false, reply)
      else
        var full := s.(inbox := s.inbox + [reply]);
        var got := full.inbox[0];
        (Read(full).(log := full.log + [Exchange(id, got)]), true, got)
  }

  /** The error code a reply leads to; a packet of another kind is a protocol error. */
  function Outcome(got: Item, kind: Kind): nat {
    if got.Answer? && got.kind == kind then got.err else ERR_SERVER_CON
  }

  /** A packet in a receive buffer of at least four words. */
  function Buffered(pkt: seq<Word>): (rsp: seq<Word>)
    ensures |rsp| >= 4
  {
    pkt + [ZERO, ZERO, ZERO, ZERO]
  }

  /** What rcv_msg returns for a packet, and what it hands out: a reply is no message, and a message must be for
      channel num and not longer than agreed; a reset notification counts as received. */
  function HandOut(got: Item, num: nat, d2c: nat): (nat, Received) {
    match got
    case Answer(_, _, _) => (ERR_SERVER_CON, Notified)
    case Message(m) =>
      var res := ReadMsg(Buffered(m), num).res;
      match res
      case Rejected => (ERR_SERVER_CON, Notified)
      case Notified => (ERR_NONE, Notified)
      case Msg(_, len, _) => if len > d2c then (ERR_GENERAL, Notified) else (ERR_NONE, res)
  }

  // ---- The client's state, and its calls as a function of it ----

  datatype State = ChlState(cht: Cht, num: nat, rcvActive: bool, session: bool, link: Link)

  /** c2d, d2c: the message lengths agreed with the server. */
  datatype Call =
    | Request(kind: Kind)
    | DoSubscribe(chl: nat, cht: Cht)
    | DoUnsubscribe
    | SendMsg(n: nat, init: Word, c2d: nat)
    | RcvMsg(d2c: nat)

  /** Does the call get past its guards and talk to the server? */
  predicate Allowed(s: State, c: Call) {
    match c
    case Request(SessionStart) => s.cht == None && !s.session
    case Request(DeviceConnect) => s.cht == None && !s.rcvActive
    case Request(Ping) => s.cht == None
    case Request(GetTargets) => !s.rcvActive
    case Request(UnlockSetKey) => !s.rcvActive
    case Request(_) => false
    case DoSubscribe(chl, cht) => s.session && s.cht == None && chl < CHL_NUM_MAX && cht != None
    case DoUnsubscribe => s.cht != None
    case SendMsg(_, _, _) => s.cht == Send || s.cht == Bidi
    case RcvMsg(_) => Receives(s.cht)
  }

  /** The unsubscribe loop: packets are dropped until the reply is there, or the time is up. */
  function Drain(l: Link, patience: nat): (r: (Link, nat))
    decreases |l.inbox|
  {
    if l.inbox == [] then (l, ERR_SERVER_CON)
    else
      var got := l.inbox[0];
      var rest := Read(l);
      if got.Answer? && got.kind == Unsubscribe then (rest, got.err)
      else if patience == 0 then (rest, ERR_SERVER_CON)
      else Drain(rest, patience - 1)
  }

  function UnsubscribeOn(l: Link, env: Env): (Link, nat) {
    if !l.connected then (l, ERR_SERVER_CON)
    else
      var s := Served(Push(l, env.before), Unsubscribe, None, env.err).(issued := l.issued + 1);
      var reply := Answer(l.issued, Unsubscribe, env.err);
      if env.timely then Drain(s.(inbox := s.inbox + [reply]), env.patience)
      else
        var (d, err) := Drain(s, env.patience);
        (d.(inbox := d.inbox + [reply]), err)
  }

  /** State and error code after a call. */
  function Step(s: State, c: Call, env: Env): (State, nat) {
    match c
    case Request(kind) =>
      if !Allowed(s, c) then (s, ERR_FN_USAGE)
      else
        var (l, ok, got) := Execute(s.link, kind, None, env);
        var err := if ok then Outcome(got, kind) else ERR_SERVER_CON;
        (s.(link := l, session := s.session || (kind == SessionStart && err == ERR_NONE)), err)
    case DoSubscribe(chl, cht) =>
      if !s.session || s.cht != None then (s, ERR_FN_USAGE)
      else if chl >= CHL_NUM_MAX || cht == None then (s.(num := CHL_NUM_MAX), ERR_FN_PARAM)
      else
        var (l, ok, got) := Execute(s.link, Subscribe, cht, env);
        var err := if ok then Outcome(got, Subscribe) else ERR_SERVER_CON;
        (if err == ERR_NONE then ChlState(cht, chl, Receives(cht), s.session, l) else s.(num := CHL_NUM_MAX, link := l), err)
    case DoUnsubscribe =>
      if s.cht == None then (s, ERR_NONE)
      else
        var (l, err) := UnsubscribeOn(s.link, env);
        (ChlState(None, CHL_NUM_MAX, false, s.session, l), err)
    case SendMsg(n, init, c2d) =>
      if !Allowed(s, c) then (s, ERR_FN_USAGE)
      else if !MayBeSent(n, init, c2d) then (s, ERR_FN_PARAM)
      else (s.(link := Push(s.link, env.before)), if s.link.connected then ERR_NONE else ERR_SERVER_CON)
    case RcvMsg(d2c) =>
      if !Allowed(s, c) then (s, ERR_FN_USAGE)
      else
        var l := Push(s.link, env.before);
        if !l.connected || l.inbox == [] then (s.(link := l), ERR_CHL_RCV)
        else (s.(link := Read(l)), HandOut(l.inbox[0], s.num, d2c).0)
  }

  // ---- Safety ----

  ghost predicate OnlyMessages(items: seq<Item>) {
    forall i :: 0 <= i < |items| ==> items[i].Message?
  }

  /** Every packet read as a reply belongs to the request just sent. */
  ghost predicate Matched(log: seq<Exchange>) {
    forall i :: 0 <= i < |log| ==> log[i].got.Answer? && log[i].got.id == log[i].id
  }

  function Pending(items: seq<Item>): seq<seq<Word>> {
    if items == [] then [] else (if items[0].Message? then [items[0].m] else []) + Pending(items[1..])
  }

  ghost predicate Inv(s: State) {
    && (s.cht == None <==> s.num == CHL_NUM_MAX) && s.num <= CHL_NUM_MAX && (s.rcvActive <==> Receives(s.cht))
    && s.link.sub == s.cht && OnlyMessages(s.link.inbox) && (!s.rcvActive ==> s.link.inbox == [])
    && Matched(s.link.log) && s.link.pushed == s.link.taken + Pending(s.link.inbox)
  }

  /** Does the call, if it waits for a reply, get it in time? */
  predicate InTime(s: State, c: Call, env: Env) {
    Allowed(s, c) && s.link.connected && (c.Request? || c.DoSubscribe? || c.DoUnsubscribe?) ==>
      env.timely && (c.DoUnsubscribe? ==> |Push(s.link, env.before).inbox| <= env.patience)
  }

  /** The server never fails an unsubscribe. */
  predicate Conforms(c: Call, env: Env) {
    c.DoUnsubscribe? ==> env.err == ERR_NONE
  }

  lemma {:induction false} PendingAppend(a: seq<Item>, b: seq<Item>)
    ensures Pending(a + b) == Pending(a) + Pending(b)
  {
    if a == [] {
      assert a + b == b;
    } else {
      var first := if a[0].Message? then [a[0].m] else [];
      assert (a + b)[0] == a[0] && (a + b)[1..] == a[1..] + b;
      PendingAppend(a[1..], b);
      assert Pending(a + b) == first + (Pending(a[1..]) + Pending(b));
    }
  }

  lemma {:induction false} PendingMessages(ms: seq<seq<Word>>)
    ensures Pending(Messages(ms)) == ms
  {
    if ms != [] {
      assert Messages(ms)[1..] == Messages(ms[1..]);
      PendingMessages(ms[1..]);
    }
  }

  lemma PushKeeps(s: State, ms: seq<seq<Word>>)
    requires Inv(s)
    ensures Inv(s.(link := Push(s.link, ms)))
  {
    PendingAppend(s.link.inbox, Messages(ms));
    PendingMessages(ms);
  }

  lemma ReadKeeps(s: State)
    requires Inv(s) && s.link.inbox != []
    ensures Inv(s.(link := Read(s.link)))
  {}

  /** With nothing unread, a request in time gets its own reply, and leaves nothing unread. */
  lemma ExecuteInTime(s: State, kind: Kind, cht: Cht, env: Env)
    requires Inv(s) && !s.rcvActive && s.link.connected && env.timely
    ensures var l := s.link;
      Execute(l, kind, cht, env) ==
        (Served(l, kind, cht, env.err).(issued := l.issued + 1, log := l.log + [Exchange(l.issued, Answer(l.issued, kind, env.err))]),
         true, Answer(l.issued, kind, env.err))
  {
    var l := s.link;
    assert Push(l, env.before) == l;
    var reply := Answer(l.issued, kind, env.err);
    assert [] + [reply] == [reply] && [reply][1..] == [];
  }

  /** An unsubscribe in time drops every pending message and reads its own reply. */
  lemma {:induction false} DrainAll(l: Link, ms: seq<Item>, id: nat, err: nat, patience: nat)
    requires l.inbox == ms + [Answer(id, Unsubscribe, err)] && OnlyMessages(ms) && |ms| <= patience
    ensures Drain(l, patience) == (l.(inbox := [], taken := l.taken + Pending(ms)), err)
    decreases |ms|
  {
    var reply := [Answer(id, Unsubscribe, err)];
    if ms == [] {
      assert l.inbox == reply && reply[1..] == [] && l.taken + [] == l.taken;
    } else {
      assert l.inbox[0] == ms[0] && l.inbox[1..] == ms[1..] + reply;
      var rest := Read(l);
      assert rest == l.(inbox := ms[1..] + reply, taken := l.taken + [ms[0].m]);
      DrainAll(rest, ms[1..], id, err, patience - 1);
      assert Pending(ms) == [ms[0].m] + Pending(ms[1..]);
      assert l.taken + Pending(ms) == (l.taken + [ms[0].m]) + Pending(ms[1..]);
      assert Drain(l, patience) == Drain(rest, patience - 1);
    }
  }

  lemma UnsubscribeInTime(s: State, env: Env)
    requires Inv(s) && s.link.connected && env.timely && |Push(s.link, env.before).inbox| <= env.patience
    ensures var p := Push(s.link, env.before);
      UnsubscribeOn(s.link, env) == (p.(inbox := [], taken := p.pushed, sub := None, issued := s.link.issued + 1), env.err)
  {
    PushKeeps(s, env.before);
    var p := Push(s.link, env.before);
    DrainAll(p.(sub := None, issued := s.link.issued + 1, inbox := p.inbox + [Answer(s.link.issued, Unsubscribe, env.err)]),
             p.inbox, s.link.issued, env.err, env.patience);
  }

  /** One call keeps the invariant if no reply is late. A successful unsubscribe leaves nothing unread. */
  lemma StepSafe(s: State, c: Call, env: Env)
    requires Inv(s) && s.link.connected && InTime(s, c, env) && Conforms(c, env)
    ensures var (t, err) := Step(s, c, env);
      Inv(t) && t.link.connected && (c.DoUnsubscribe? ==> err == ERR_NONE && t.cht == None && t.link.inbox == [])
  {
    match c
    case Request(kind) =>
      if Allowed(s, c) {
        ExecuteInTime(s, kind, None, env);
      }
    case DoSubscribe(chl, cht) =>
      if Allowed(s, c) {
        ExecuteInTime(s, Subscribe, cht, env);
      }
    case DoUnsubscribe =>
      if s.cht != None {
        UnsubscribeInTime(s, env);
      }
    case SendMsg(_, _, _) =>
      PushKeeps(s, env.before);
    case RcvMsg(_) =>
      PushKeeps(s, env.before);
      var t := s.(link := Push(s.link, env.before));
      if t.link.inbox != [] {
        ReadKeeps(t);
      }
  }

  // ---- Whole runs ----

  datatype Event = Event(call: Call, env: Env)

  function Run(s: State, es: seq<Event>): State
    decreases |es|
  {
    if es == [] then s else Run(Step(s, es[0].call, es[0].env).0, es[1..])
  }

  ghost predicate AllInTime(s: State, es: seq<Event>)
    decreases |es|
  {
    es == [] || (InTime(s, es[0].call, es[0].env) && Conforms(es[0].call, es[0].env)
                 && AllInTime(Step(s, es[0].call, es[0].env).0, es[1..]))
  }

  const FRESH := ChlState(None, CHL_NUM_MAX, false, false, Link(true, [], None, 0, [], [], []))

  /** Over every run without a late reply: channel type, number and receive flag agree with each other
      and with the server; only device messages are ever unread, and none while the receive flag is off;
      each reply belongs to the request just sent; and the device messages sent are those read so far
      followed by those still unread, in order. */
  lemma {:induction false} RunSafe(s: State, es: seq<Event>)
    requires Inv(s) && s.link.connected && AllInTime(s, es)
    ensures Inv(Run(s, es)) && Run(s, es).link.connected
    decreases |es|
  {
    hide Inv, Step, InTime, Conforms;
    if es != [] {
      StepSafe(s, es[0].call, es[0].env);
      RunSafe(Step(s, es[0].call, es[0].env).0, es[1..]);
    }
  }

  lemma {:induction false} RunAppend(s: State, es: seq<Event>, e: Event)
    ensures Run(s, es + [e]) == Step(Run(s, es), e.call, e.env).0
    decreases |es|
  {
    hide Step;
    if es == [] {
      assert [] + [e] == [e] && [e][1..] == [];
      assert Run(Step(s, e.call, e.env).0, []) == Step(s, e.call, e.env).0;
    } else {
      assert (es + [e])[0] == es[0] && (es + [e])[1..] == es[1..] + [e];
      RunAppend(Step(s, es[0].call, es[0].env).0, es[1..], e);
    }
  }

  // ---- What the calls return ----

  /** The server's verdict reaches the caller: a call that is not refused, and whose reply comes in time. */
  lemma RequestReturns(s: State, kind: Kind, env: Env)
    requires Inv(s) && s.link.connected && InTime(s, Call.Request(kind), env)
    ensures var (t, err) := Step(s, Call.Request(kind), env);
      && var refused := match kind
           case SessionStart => s.cht != None || s.session
           case DeviceConnect => s.cht != None || s.rcvActive
           case Ping => s.cht != None
           case GetTargets => s.rcvActive
           case UnlockSetKey => s.rcvActive
           case Subscribe => true
           case Unsubscribe => true;
      && err == (if refused then 0x0110 else env.err)
      && t.cht == s.cht && t.num == s.num && t.rcvActive == s.rcvActive
      && t.session == (s.session || (kind == SessionStart && !refused && env.err == 0))
  {
    if Allowed(s, Call.Request(kind)) {
      ExecuteInTime(s, kind, None, env);
    }
  }

  /** A subscribe needs a session and no subscription, a channel below 32 and a type. Then it returns the
      server's verdict; and only if that is no error, type, number and receive flag are those asked for. */
  lemma SubscribeReturns(s: State, chl: nat, cht: Cht, env: Env)
    requires Inv(s) && s.link.connected && InTime(s, Call.DoSubscribe(chl, cht), env)
    ensures var (t, err) := Step(s, Call.DoSubscribe(chl, cht), env);
      && err == (if !s.session || s.cht != None then 0x0110 else if chl >= 32 || cht == None then 0x0120 else env.err)
      && t.session == s.session
      && if s.session && s.cht == None && chl < 32 && cht != None && env.err == 0 then
           t.cht == cht && t.num == chl && (t.rcvActive <==> cht == Rcv || cht == Bidi)
         else t.cht == s.cht && t.rcvActive == s.rcvActive && (s.cht == None ==> t.num == 32)
  {
    if Allowed(s, Call.DoSubscribe(chl, cht)) {
      ExecuteInTime(s, Subscribe, cht, env);
    }
  }

  lemma UnsubscribeReturns(s: State, env: Env)
    requires Inv(s) && s.link.connected && InTime(s, DoUnsubscribe, env)
    ensures var (t, err) := Step(s, DoUnsubscribe, env);
      && err == (if s.cht == None then 0 else env.err)
      && t.cht == None && t.num == 32 && !t.rcvActive && t.session == s.session
  {
    if s.cht != None {
      UnsubscribeInTime(s, env);
    }
  }

  /** The wait of an unsubscribe ends with the first reply to an unsubscribe, if it is among the packets it is ready
      to read, with that reply's code. */
  lemma {:induction false} DrainStops(l: Link, patience: nat, i: nat)
    requires i < |l.inbox| && i <= patience && l.inbox[i].Answer? && l.inbox[i].kind == Unsubscribe
    requires forall j :: 0 <= j < i ==> l.inbox[j].Message? || l.inbox[j].kind != Unsubscribe
    ensures var (d, err) := Drain(l, patience); err == l.inbox[i].err && d.inbox == l.inbox[i + 1..]
    decreases i
  {
    if i > 0 {
      DrainStops(Read(l), patience - 1, i - 1);
    }
  }

  /** Otherwise those packets are dropped, and it is a connection error. */
  lemma {:induction false} DrainGivesUp(l: Link, patience: nat)
    requires forall j :: 0 <= j < |l.inbox| && j <= patience ==> l.inbox[j].Message? || l.inbox[j].kind != Unsubscribe
    ensures var (d, err) := Drain(l, patience);
      err == 0x0200 && d.inbox == if patience < |l.inbox| then l.inbox[patience + 1..] else []
    decreases patience
  {
    if l.inbox != [] && patience > 0 {
      DrainGivesUp(Read(l), patience - 1);
    }
  }

  /** Sending needs a send or bidi subscription, and a length, with the init word, that passes as a 16-bit value. */
  lemma SendReturns(s: State, n: nat, init: Word, c2d: nat, env: Env)
    requires s.link.connected
    ensures var (t, err) := Step(s, Call.SendMsg(n, init, c2d), env);
      && t.(link := s.link) == s
      && err == if s.cht != Send && s.cht != Bidi then 0x0110
                else if (n + if init == ZERO then 0 else 4) % 0x1_0000 > c2d then 0x0120 else 0
  {}

  /** A call that waits for a reply that does not come in time, or on a closed connection, is a connection error;
      so is a reply to another kind of request. */
  lemma NoReplyReturns(s: State, c: Call, env: Env)
    requires Allowed(s, c) && (c.Request? || c.DoSubscribe?)
    requires !s.link.connected || (!env.timely && Push(s.link, env.before).inbox == [])
      || (s.link.connected && s.link.inbox != [] && !(s.link.inbox[0].Answer? && s.link.inbox[0].kind == if c.Request? then c.kind else Subscribe))
    ensures var (t, err) := Step(s, c, env);
      err == 0x0200 && t.cht == s.cht && t.rcvActive == s.rcvActive && t.session == s.session
  {
    if s.link.connected && s.link.inbox != [] {
      assert Push(s.link, env.before).inbox[0] == s.link.inbox[0];
    }
  }

  /** Receiving needs a receive or bidi subscription; nothing there is an error of its own, and a reply is no message. */
  lemma NothingReturns(s: State, d2c: nat, env: Env)
    ensures var l := Push(s.link, env.before); var (t, err) := Step(s, Call.RcvMsg(d2c), env);
      && (s.cht != Rcv && s.cht != Bidi ==> err == 0x0110 && t == s)
      && ((s.cht == Rcv || s.cht == Bidi) && (!l.connected || l.inbox == []) ==> err == 0x0820 && t == s.(link := l))
      && ((s.cht == Rcv || s.cht == Bidi) && l.connected && l.inbox != [] && l.inbox[0].Answer? ==> err == 0x0200 && t.link.inbox == l.inbox[1..])
  {}

  /** Is the session open exactly if one of these calls, a session start, returned no error? */
  ghost predicate StartedIn(s: State, es: seq<Event>) {
    exists i :: 0 <= i < |es| && StartedAt(s, es, i)
  }

  ghost predicate StartedAt(s: State, es: seq<Event>, i: nat)
    requires i < |es|
  {
    es[i].call == Call.Request(SessionStart) && Step(Run(s, es[..i]), es[i].call, es[i].env).1 == 0
  }

  lemma SessionStep(s: State, c: Call, env: Env)
    ensures var (t, err) := Step(s, c, env); t.session <==> s.session || (c == Call.Request(SessionStart) && err == 0)
  {}

  /** Over every run of a new client, also with late replies and a closed connection: a session is open exactly if
      some session_start of the run returned no error. */
  lemma {:induction false} SessionExactly(es: seq<Event>)
    ensures Run(FRESH, es).session <==> StartedIn(FRESH, es)
    decreases |es|
  {
    hide Step, StartedAt;
    if es != [] {
      var n := |es| - 1;
      var front, e := es[..n], es[n];
      assert es == front + [e];
      SessionExactly(front);
      RunAppend(FRESH, front, e);
      SessionStep(Run(FRESH, front), e.call, e.env);
      StartedLast(FRESH, es, n);
      forall i | 0 <= i < n ensures StartedAt(FRESH, front, i) <==> StartedAt(FRESH, es, i) {
        StartedEarlier(FRESH, es, i, n);
      }
    }
  }

  lemma StartedLast(s: State, es: seq<Event>, n: nat)
    requires n < |es|
    ensures StartedAt(s, es, n) <==> es[n].call == Call.Request(SessionStart) && Step(Run(s, es[..n]), es[n].call, es[n].env).1 == 0
  {}

  lemma StartedEarlier(s: State, es: seq<Event>, i: nat, n: nat)
    requires i < n <= |es|
    ensures StartedAt(s, es[..n], i) <==> StartedAt(s, es, i)
  {
    assert es[..n][..i] == es[..i] && es[..n][i] == es[i];
  }

  /** A new client gets to every channel of every type: session_start, then subscribe, both answered in time
      without error. */
  lemma FreshSubscribes(chl: nat, cht: Cht, a: Env, b: Env)
    requires chl < 32 && cht != None && a.timely && a.err == 0 && b.timely && b.err == 0
    ensures var s := Run(FRESH, [Event(Call.Request(SessionStart), a), Event(Call.DoSubscribe(chl, cht), b)]);
      s.session && s.cht == cht && s.num == chl && (s.rcvActive <==> cht == Rcv || cht == Bidi) && s.link.connected
  {
    hide Step, Inv, InTime;
    var e0, e1 := Event(Call.Request(SessionStart), a), Event(Call.DoSubscribe(chl, cht), b);
    var s1 := Step(FRESH, e0.call, e0.env).0;
    FreshInv(a, b, chl, cht);
    RequestReturns(FRESH, SessionStart, a);
    StepSafe(FRESH, e0.call, a);
    AlwaysInTime(s1, chl, cht, b);
    SubscribeReturns(s1, chl, cht, b);
    StepSafe(s1, e1.call, b);
    assert [e0, e1] == [e0] + [e1] && [e0] == [] + [e0] && Run(FRESH, []) == FRESH;
    RunAppend(FRESH, [], e0);
    RunAppend(FRESH, [e0], e1);
  }

  lemma FreshInv(a: Env, b: Env, chl: nat, cht: Cht)
    requires a.timely
    ensures Inv(FRESH) && InTime(FRESH, Call.Request(SessionStart), a)
  {}

  lemma AlwaysInTime(s: State, chl: nat, cht: Cht, env: Env)
    requires env.timely
    ensures InTime(s, Call.DoSubscribe(chl, cht), env)
  {}

  // ---- Which messages are handed out ----

  lemma BufferedRead(m: seq<Word>, num: nat)
    requires |m| >= 4
    ensures ReadMsg(Buffered(m), num) == ReadMsg(m, num)
  {}

  lemma BufferedBytes(m: seq<Word>, r: Received)
    requires r.Msg? && r.at <= |m| && r.len <= 4 * |m[r.at..]|
    ensures r.len <= 4 * |Buffered(m)[r.at..]| && Bytes(Buffered(m), r) == Bytes(m, r)
  {
    var a, b := ToBytes(m[r.at..]), ToBytes(Buffered(m)[r.at..]);
    assert forall i :: 0 <= i < |m| - r.at ==> m[r.at..][i] == Buffered(m)[r.at..][i];
    forall i | 0 <= i < r.len ensures a[i] == b[i] {
      assert m[r.at..][i / 4] == Buffered(m)[r.at..][i / 4];
    }
    assert a[..r.len] == b[..r.len];
  }

  /** A message of the device, with or without a reset report, as the oldest unread packet: one for this channel
      that is not longer than agreed is handed out with its own bytes, length and init word; a longer one is an
      error, and so is one for another channel. Only the message without bytes and init word is none. */
  lemma MessageHandedOut(num: nat, to: nat, init: Word, msg: seq<byte>, pad: seq<Word>, reset: bool, d2c: nat)
    requires num < CHL_NUM_MAX && to < CHL_NUM_MAX && |msg| + 4 < TWO16 && |pad| == (|msg| + 3) / 4
    requires msg != [] || init != ZERO
    ensures var m := MsgWords(CMD_MSG_D2C, if reset then DEV_RESET else PL_NO_ERROR, to, init, msg, pad);
      var (err, res) := HandOut(Message(m), num, d2c);
      && err == (if to != num then 0x0200 else if |msg| > d2c then 0x0F00 else 0)
      && if err == 0 then
           && res.Msg? && res.len == |msg| && res.init == init
           && res.at <= |Buffered(m)| && res.len <= 4 * |Buffered(m)[res.at..]| && Bytes(Buffered(m), res) == msg
         else res == Notified
  {
    hide MsgWords, ReadMsg, Bytes, Buffered;
    var m := MsgWords(CMD_MSG_D2C, if reset then DEV_RESET else PL_NO_ERROR, to, init, msg, pad);
    MessageRoundTrip(to, init, msg, pad, reset);
    BufferedRead(m, num);
    if to == num {
      BufferedBytes(m, ReadMsg(m, num).res);
      BufferedLonger(m);
    } else {
      OtherChannel(m, to, num, init, msg, pad, reset);
    }
  }

  /** Any other packet of the device: a reset notification is no error, but no message either; what is neither that nor
      a message for the channel is a connection error. */
  lemma OtherHandedOut(m: seq<Word>, num: nat, d2c: nat)
    requires !ReadMsg(Buffered(m), num).res.Msg?
    ensures var ws := Buffered(m);
      var reset := U32(ws[0]) == 12 && ws[1].b0 == 1 && ws[1].b1 == 0xCD && ws[1].b3 == 0x44 && ws[2] == Word(0, 0, 0, 0);
      HandOut(Message(m), num, d2c) == (if reset then 0 else 0x0200, Notified)
  {
    hide U32, Buffered, ReadFields, Field16;
    var ws := Buffered(m);
    OtherFields(U32(ws[0]), ws[1], ws[2], ws[3], num);
  }

  lemma OtherFields(size: nat, h: Word, w: Word, init: Word, num: nat)
    ensures var res := ReadFields(size, h, w.b0, w.b1, Field16(w), init, num).res;
      res.Notified? <==> h.b0 == 1 && h.b1 == 0xCD && h.b3 == 0x44 && size == 12 && w == Word(0, 0, 0, 0)
  {
    hide *;
    ZeroField(w);
    ReadExactly(size, h, w.b0, w.b1, Field16(w), init, num);
  }

  lemma ZeroField(w: Word)
    ensures w == Word(0, 0, 0, 0) <==> w.b0 == 0 && w.b1 == 0 && Field16(w) == 0
  {}

  lemma BufferedLonger(m: seq<Word>)
    ensures |Buffered(m)| >= |m|
  {}

  lemma OtherChannel(m: seq<Word>, to: nat, num: nat, init: Word, msg: seq<byte>, pad: seq<Word>, reset: bool)
    requires num < CHL_NUM_MAX && to < CHL_NUM_MAX && to != num && |msg| + 4 < TWO16 && |pad| == (|msg| + 3) / 4
    requires msg != [] || init != ZERO
    requires m == MsgWords(CMD_MSG_D2C, if reset then DEV_RESET else PL_NO_ERROR, to, init, msg, pad) && |m| >= 4
    ensures ReadMsg(m, num).res.Rejected?
  {
    var len := LengthField(init, |msg|);
    LengthIs(init, |msg|);
    SizeIs(len);
    HeaderIs(to, OptionOf(init), len);
    hide LengthField, PktSize, MsgHeader, FromU32, U32, Field16;
  }

  /** So rcv_msg, on a subscribed channel with such a message as the oldest unread packet. */
  lemma ReceiveReturns(s: State, d2c: nat, env: Env, to: nat, init: Word, msg: seq<byte>, pad: seq<Word>, reset: bool)
    requires Inv(s) && s.link.connected && Receives(s.cht)
    requires to < CHL_NUM_MAX && |msg| + 4 < TWO16 && |pad| == (|msg| + 3) / 4 && (msg != [] || init != ZERO)
    requires var l := Push(s.link, env.before);
      l.inbox != [] && l.inbox[0] == Message(MsgWords(CMD_MSG_D2C, if reset then DEV_RESET else PL_NO_ERROR, to, init, msg, pad))
    ensures var l := Push(s.link, env.before); var (t, err) := Step(s, Call.RcvMsg(d2c), env);
      && err == (if to != s.num then 0x0200 else if |msg| > d2c then 0x0F00 else 0)
      && t.link.inbox == l.inbox[1..]
      && t.link.taken == l.taken + [MsgWords(CMD_MSG_D2C, if reset then DEV_RESET else PL_NO_ERROR, to, init, msg, pad)]
  {
    hide MsgWords, HandOut, Buffered, ReadMsg;
    MessageHandedOut(s.num, to, init, msg, pad, reset, d2c);
  }

  // ---- What a late reply does ----

  const PLAIN := Env([], ERR_NONE, true, 0)

  /** Calls that send a request and take the next packet as its reply. */
  predicate Asks(c: Call) {
    c.Request? || c.DoSubscribe?
  }

  /** The next request reads what was left in front of its own reply. */
  lemma StaleRead(s: State, c: Call, env: Env)
    requires s.link.connected && s.link.inbox != [] && Asks(c) && Allowed(s, c)
    requires s.link.inbox[0].Answer? ==> s.link.inbox[0].id != s.link.issued
    ensures !Matched(Step(s, c, env).0.link.log)
  {
    var l := s.link;
    var kind := if c.Request? then c.kind else Subscribe;
    var p := Push(l, env.before);
    assert p.inbox[0] == l.inbox[0];
    var log := Step(s, c, env).0.link.log;
    var full := p.inbox + [Answer(l.issued, kind, env.err)];
    assert full[0] == l.inbox[0];
    assert log == l.log + [Exchange(l.issued, l.inbox[0])];
    assert log[|l.log|] == Exchange(l.issued, l.inbox[0]);
  }

  /** Draining messages only: the loop gives up with an error, and takes at most patience + 1 of them. */
  lemma {:induction false} DrainSome(l: Link, ms: seq<Item>, rest: seq<Item>, patience: nat)
    requires l.inbox == ms + rest && OnlyMessages(ms) && (rest == [] || |ms| > patience)
    ensures var d := Drain(l, patience).0;
      && d == l.(inbox := d.inbox, taken := d.taken) && Drain(l, patience).1 == ERR_SERVER_CON
      && exists k: nat :: k <= |ms| && d.inbox == ms[k..] + rest
    decreases |ms|
  {
    hide OnlyMessages;
    if ms == [] {
      assert ms[0..] + rest == rest;
    } else {
      assert ms[0].Message? && OnlyMessages(ms[1..]) by { TailMessages(ms); }
      assert l.inbox[0] == ms[0] && l.inbox[1..] == ms[1..] + rest;
      if patience > 0 {
        DrainSome(Read(l), ms[1..], rest, patience - 1);
        var d := Drain(l, patience).0;
        assert d == Drain(Read(l), patience - 1).0;
        var k: nat :| k <= |ms[1..]| && d.inbox == ms[1..][k..] + rest;
        assert ms[1..][k..] == ms[k + 1..];
      }
    }
  }

  lemma TailMessages(ms: seq<Item>)
    requires OnlyMessages(ms) && ms != []
    ensures ms[0].Message? && OnlyMessages(ms[1..])
  {}

  lemma LateExecute(s: State, kind: Kind, cht: Cht, env: Env)
    requires Inv(s) && !s.rcvActive && s.link.connected && !env.timely
    ensures var r := Execute(s.link, kind, cht, env);
      !r.1 && r.0.connected && r.0.inbox == [Answer(s.link.issued, kind, env.err)] && r.0.issued == s.link.issued + 1
  {}

  lemma LateUnsubscribe(s: State, env: Env)
    requires Inv(s) && s.link.connected && !(env.timely && |Push(s.link, env.before).inbox| <= env.patience)
    ensures var (l, err) := UnsubscribeOn(s.link, env);
      && l.connected && l.inbox != [] && l.issued == s.link.issued + 1 && err == ERR_SERVER_CON
      && (l.inbox[0].Answer? ==> l.inbox[0].id == s.link.issued)
  {
    PushKeeps(s, env.before);
    var ms := Push(s.link, env.before).inbox;
    var reply := Answer(s.link.issued, Unsubscribe, env.err);
    var d0 := Served(Push(s.link, env.before), Unsubscribe, None, env.err).(issued := s.link.issued + 1);
    if env.timely {
      DrainSome(d0.(inbox := ms + [reply]), ms, [reply], env.patience);
    } else {
      assert ms + [] == ms;
      DrainSome(d0, ms, [], env.patience);
    }
  }

  lemma LateState(s: State, c: Call, env: Env)
    requires Inv(s) && s.link.connected && !InTime(s, c, env)
    ensures var t := Step(s, c, env).0;
      && t.link.connected && t.link.inbox != [] && !t.rcvActive
      && (t.link.inbox[0].Answer? ==> t.link.inbox[0].id != t.link.issued)
  {
    match c {
      case Request(kind) => LateExecute(s, kind, None, env);
      case DoSubscribe(chl, cht) => LateExecute(s, Subscribe, cht, env);
      case DoUnsubscribe => LateUnsubscribe(s, env);
      case _ => assert false;
    }
  }

  /** After a late reply, whatever request comes next reads a packet that is not its own. */
  lemma LateBreaks(s: State, c: Call, env: Env, d: Call, next: Env)
    requires Inv(s) && s.link.connected && !InTime(s, c, env)
    requires Asks(d) && Allowed(Step(s, c, env).0, d)
    ensures !Matched(Step(Step(s, c, env).0, d, next).0.link.log)
  {
    hide Step, Inv, InTime;
    LateState(s, c, env);
    StaleRead(Step(s, c, env).0, d, next);
  }

  /** Every next request that is served in time gets its own reply, exactly if the call before it got its
      reply in time. */
  lemma SafeExactly(s: State, c: Call, env: Env)
    requires Inv(s) && s.link.connected && Conforms(c, env)
    ensures InTime(s, c, env) <==>
      forall d: Call, next: Env :: Asks(d) && Allowed(Step(s, c, env).0, d) && next.timely ==>
        Matched(Step(Step(s, c, env).0, d, next).0.link.log)
  {
    hide Step, Inv, InTime, Allowed;
    var t := Step(s, c, env).0;
    if InTime(s, c, env) {
      StepSafe(s, c, env);
      forall d: Call, next: Env | Asks(d) && Allowed(t, d) && next.timely ensures Matched(Step(t, d, next).0.link.log) {
        AskSafe(t, d, next);
      }
    } else {
      LateState(s, c, env);
      var d := Call.Request(GetTargets);
      assert PLAIN.timely && Asks(d) && Allowed(t, d) by { TargetsAllowed(t); }
      LateBreaks(s, c, env, d, PLAIN);
    }
  }

  lemma TargetsAllowed(s: State)
    requires !s.rcvActive
    ensures Allowed(s, Call.Request(GetTargets))
  {}

  lemma AskSafe(s: State, c: Call, env: Env)
    requires Inv(s) && s.link.connected && env.timely && Asks(c)
    ensures Matched(Step(s, c, env).0.link.log)
  {
    StepSafe(s, c, env);
  }

  /** Along every run of a new client in which no reply was late so far: the next request served in time gets
      its own reply, and the one after the first late reply does not. */
  lemma FreshRun(es: seq<Event>, e: Event, d: Call, next: Env)
    requires AllInTime(FRESH, es) && Conforms(e.call, e.env)
    requires Asks(d) && Allowed(Run(FRESH, es + [e]), d) && next.timely
    ensures Matched(Run(FRESH, es).link.log)
    ensures Matched(Run(FRESH, es + [e, Event(d, next)]).link.log) <==> InTime(Run(FRESH, es), e.call, e.env)
  {
    hide Step, InTime, Conforms, Allowed;
    RunSafe(FRESH, es);
    var s := Run(FRESH, es);
    RunAppend(FRESH, es, e);
    RunAppend(FRESH, es + [e], Event(d, next));
    assert es + [e, Event(d, next)] == es + [e] + [Event(d, next)];
    if InTime(s, e.call, e.env) {
      StepSafe(s, e.call, e.env);
      AskSafe(Step(s, e.call, e.env).0, d, next);
    } else {
      LateBreaks(s, e.call, e.env, d, next);
    }
  }

  // ---- The client object ----

  class ChlClient {
    var chlCht: Cht
    var chlNum: nat
    var rcvChlActive: bool
    var sessionStarted: bool
    var link: Link

    function Now(): State
      reads this
    {
      ChlState(chlCht, chlNum, rcvChlActive, sessionStarted, link)
    }

    constructor ()
      ensures Now() == FRESH
    {
      chlCht, chlNum, rcvChlActive, sessionStarted := None, CHL_NUM_MAX, false, false;
      link := FRESH.link;
    }

    /** session_start, device_connect, target_ping, get_targets, device_unlock_set_key: their guards,
        then one request and its reply. */
    method Request(kind: Kind, env: Env) returns (err: nat)
      requires kind != Subscribe && kind != Unsubscribe
      modifies this
      ensures (Now(), err) == Step(old(Now()), Call.Request(kind), env)
    {
      if (kind == SessionStart || kind == DeviceConnect || kind == Ping) && chlCht != None {
        return ERR_FN_USAGE;
      }
      if kind == SessionStart && sessionStarted {
        return ERR_FN_USAGE;
      }
      if (kind == DeviceConnect || kind == GetTargets || kind == UnlockSetKey) && rcvChlActive {
        return ERR_FN_USAGE;
      }
      var r := Execute(link, kind, None, env);
      link := r.0;
      if !r.1 {
        return ERR_SERVER_CON;
      }
      err := Outcome(r.2, kind);
      if kind == SessionStart && err == ERR_NONE {
        sessionStarted := true;
      }
    }

    method DoSubscribe(chl: nat, cht: Cht, env: Env) returns (err: nat)
      modifies this
      ensures (Now(), err) == Step(old(Now()), Call.DoSubscribe(chl, cht), env)
    {
      if !sessionStarted || chlCht != None {
        return ERR_FN_USAGE;
      }
      chlNum := CHL_NUM_MAX;
      if chl >= CHL_NUM_MAX || cht == None {
        return ERR_FN_PARAM;
      }
      var r := Execute(link, Subscribe, cht, env);
      link := r.0;
      if !r.1 {
        return ERR_SERVER_CON;
      }
      err := Outcome(r.2, Subscribe);
      if err == ERR_NONE {
        chlCht, chlNum := cht, chl;
        rcvChlActive := chlCht == Rcv || chlCht == Bidi;
      }
    }

    method DoUnsubscribe(env: Env) returns (err: nat)
      modifies this
      ensures (Now(), err) == Step(old(Now()), Call.DoUnsubscribe, env)
    {
      if chlCht == None {
        return ERR_NONE;
      }
      chlNum, chlCht, rcvChlActive := CHL_NUM_MAX, None, false;
      if !link.connected {
        return ERR_SERVER_CON;
      }
      var reply := Answer(link.issued, Unsubscribe, env.err);
      link := Served(Push(link, env.before), Unsubscribe, None, env.err).(issued := link.issued + 1);
      if env.timely {
        link := link.(inbox := link.inbox + [reply]);
      }
      var patience := env.patience;
      ghost var l0 := link;
      err := ERR_SERVER_CON;
      while link.inbox != []
        invariant chlNum == CHL_NUM_MAX && chlCht == None && !rcvChlActive && sessionStarted == old(sessionStarted)
        invariant err == ERR_SERVER_CON && Drain(link, patience) == Drain(l0, env.patience)
        decreases |link.inbox|
      {
        var got := link.inbox[0];
        link := Read(link);
        if got.Answer? && got.kind == Unsubscribe {
          err := got.err;
          break;
        }
        if patience == 0 {
          break;
        }
        patience := patience - 1;
      }
      if !env.timely {
        link := link.(inbox := link.inbox + [reply]);
      }
    }

    method SendMsg(n: nat, init: Word, c2d: nat, env: Env) returns (err: nat)
      modifies this
      ensures (Now(), err) == Step(old(Now()), Call.SendMsg(n, init, c2d), env)
    {
      if chlCht != Send && chlCht != Bidi {
        return ERR_FN_USAGE;
      }
      var msgLength := LengthField(init, n);
      if msgLength > c2d {
        return ERR_FN_PARAM;
      }
      link := Push(link, env.before);
      return if link.connected then ERR_NONE else ERR_SERVER_CON;
    }

    /** res: the message handed out, or Notified if there is none. */
    method RcvMsg(d2c: nat, env: Env) returns (err: nat, res: Received)
      modifies this
      ensures (Now(), err) == Step(old(Now()), Call.RcvMsg(d2c), env)
      ensures var l := Push(old(link), env.before);
        if (old(chlCht) == Rcv || old(chlCht) == Bidi) && l.connected && l.inbox != [] then
          (err, res) == HandOut(l.inbox[0], old(chlNum), d2c) && link == Read(l)
        else err != ERR_NONE && res == Notified
    {
      res := Notified;
      if chlCht != Rcv && chlCht != Bidi {
        return ERR_FN_USAGE, res;
      }
      link := Push(link, env.before);
      if !link.connected || link.inbox == [] {
        return ERR_CHL_RCV, res;
      }
      var got := link.inbox[0];
      link := Read(link);
      if got.Answer? {
        return ERR_SERVER_CON, res;
      }
      var rcv := ReadMsg(Buffered(got.m), chlNum).res;
      if rcv.Rejected? {
        return ERR_SERVER_CON, res;
      }
      if rcv.Msg? && rcv.len > d2c {
        return ERR_GENERAL, res;
      }
      return ERR_NONE, rcv;
    }
  }
}
