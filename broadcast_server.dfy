// The event-processing core of broadcast_server: the transport callbacks
// queue actions, and one processing step pops the oldest action and either
// updates the connection registry or answers a message on every registered
// connection.

module BroadcastServer {
  import opened ResponseJson
  import opened ActionHandler

  datatype Option<T> = None | Some(value: T)

  /** A connection handle. The registry is an ordered set, so handles are
    * modelled by a totally ordered type. */
  type Conn = nat

  /** A queued action: the three kinds the callbacks push. */
  datatype Action =
    | Subscribe(hdl: Conn)
    | Unsubscribe(hdl: Conn)
    | Message(hdl: Conn, payload: string)

  /** One frame handed to the transport. */
  datatype Send = Send(to: Conn, payload: string)

  /** The JSON reader: the string members of the object the text holds, or
    * `None` when the text is not a JSON object. A member whose value is not
    * a string is absent from the result. */
  type Parser = string -> Option<Request>

  // ---------------------------------------------------------------------
  // The connection registry.

  /** The registry after handling one action: SUBSCRIBE inserts the handle,
    * UNSUBSCRIBE erases it, a MESSAGE leaves the registry alone. */
  function Update(s: set<Conn>, a: Action): (r: set<Conn>)
    ensures a.Subscribe? ==> a.hdl in r && r - {a.hdl} == s - {a.hdl}
    ensures a.Unsubscribe? ==> a.hdl !in r && r + {a.hdl} == s + {a.hdl}
    ensures a.Message? ==> r == s
    ensures (a.Subscribe? && a.hdl in s) || (a.Unsubscribe? && a.hdl !in s) ==> r == s
  {
    match a
    case Subscribe(h) => s + {h}
    case Unsubscribe(h) => s - {h}
    case Message(_, _) => s
  }

  /** The registry after handling `acts` in order, starting from none. */
  ghost function Registry(acts: seq<Action>): set<Conn>
  {
    if acts == [] then {} else Update(Registry(acts[..|acts| - 1]), acts[|acts| - 1])
  }

  /** A handle is registered exactly when some SUBSCRIBE for it was handled
    * and no UNSUBSCRIBE for it came after that. */
  lemma {:induction false} RegistryMembers(acts: seq<Action>, h: Conn)
    ensures h in Registry(acts) <==>
              exists i :: 0 <= i < |acts| && acts[i] == Subscribe(h)
                && forall j :: i < j < |acts| ==> acts[j] != Unsubscribe(h)
  {
    if acts != [] {
      var n := |acts| - 1;
      var init, a := acts[..n], acts[n];
      RegistryMembers(init, h);
      assert acts == init + [a];
      if a == Subscribe(h) {
        assert acts[n] == Subscribe(h);
      } else if a == Unsubscribe(h) {
        assert h !in Registry(acts);
      } else {
        assert h in Registry(acts) <==> h in Registry(init);
        if h in Registry(init) {
          var i :| 0 <= i < |init| && init[i] == Subscribe(h)
                   && forall j :: i < j < |init| ==> init[j] != Unsubscribe(h);
          assert acts[i] == Subscribe(h);
        }
        if exists i :: 0 <= i < |acts| && acts[i] == Subscribe(h)
                 && forall j :: i < j < |acts| ==> acts[j] != Unsubscribe(h) {
          var i :| 0 <= i < |acts| && acts[i] == Subscribe(h)
                   && forall j :: i < j < |acts| ==> acts[j] != Unsubscribe(h);
          assert i < n && init[i] == Subscribe(h);
        }
      }
    }
  }

  // ---------------------------------------------------------------------
  // Iteration order of the registry: ascending handles.

  /** `m` is the least member of `s`: where an ordered walk over `s` starts. */
  predicate IsLeast(m: Conn, s: set<Conn>)
  {
    m in s && forall y :: y in s ==> m <= y
  }

  lemma {:induction false} MinExists(s: set<Conn>)
    requires s != {}
    ensures exists m :: IsLeast(m, s)
    decreases |s|
  {
    var x :| x in s;
    var rest := s - {x};
    if rest == {} {
      forall y | y in s ensures x <= y {
        assert y !in rest;
      }
      assert IsLeast(x, s);
    } else {
      MinExists(rest);
      var m :| IsLeast(m, rest);
      var least := if x < m then x else m;
      forall y | y in s ensures least <= y {
        if y != x {
          assert y in rest;
        }
      }
      assert IsLeast(least, s);
    }
  }

  ghost function Min(s: set<Conn>): (m: Conn)
    requires s != {}
    ensures IsLeast(m, s)
  {
    MinExists(s);
    var m :| IsLeast(m, s); m
  }

  /** The registry's members in the order a walk over the set visits them. */
  ghost function Order(s: set<Conn>): (o: seq<Conn>)
    ensures |o| == |s|
    decreases |s|
  {
    if s == {} then [] else [Min(s)] + Order(s - {Min(s)})
  }

  /** The walk visits every member exactly once, in strictly ascending order. */
  lemma {:induction false} OrderEnumerates(s: set<Conn>)
    ensures forall c :: c in Order(s) <==> c in s
    ensures forall i, j :: 0 <= i < j < |Order(s)| ==> Order(s)[i] < Order(s)[j]
    decreases |s|
  {
    if s != {} {
      var m := Min(s);
      OrderEnumerates(s - {m});
      var o := Order(s);
      assert o == [m] + Order(s - {m});
      forall i, j | 0 <= i < j < |o| ensures o[i] < o[j] {
        assert o[j] in Order(s - {m});
        if i > 0 {
          assert o[i] == Order(s - {m})[i - 1];
        }
      }
    }
  }

  // ---------------------------------------------------------------------
  // Answering one message.

  /** A handler call: given the current message text and the token the
    * call would draw, the reply, or `None` where the source's behaviour is
    * undefined. */
  type Handler = (string, string) -> Option<string>

  /** The handler the processing loop applies for each recipient: parse the
    * current text, read the request's members and dispatch it. A text that
    * is not a JSON object, or a request missing a member the dispatcher
    * reads, has no defined reply. */
  function Handle(parse: Parser, text: string, token: string): (r: Option<string>)
    ensures r.Some? <==> parse(text).Some? && Answerable(parse(text).value)
  {
    match parse(text)
    case None => None
    case Some(req) => if Answerable(req) then Some(CompareAndPerformAction(req, token)) else None
  }

  function Answer(parse: Parser): Handler
  {
    (text, token) => Handle(parse, text, token)
  }

  /** The replies produced while walking the registry with the message
    * `payload`: each reply is written back over the message, so the next
    * recipient's reply is computed from the previous reply. `tokens[k]` is
    * the token the k-th handler call draws. `None` when some call has no
    * defined reply. */
  function Replies(handle: Handler, payload: string, tokens: seq<string>): (r: Option<seq<string>>)
    ensures r.Some? ==> |r.value| == |tokens|
    decreases |tokens|
  {
    if tokens == [] then Some([])
    else match handle(payload, tokens[0])
      case None => None
      case Some(reply) =>
        match Replies(handle, reply, tokens[1..])
        case None => None
        case Some(rest) => Some([reply] + rest)
  }

  /** The k-th reply is the handler applied to the (k-1)-th reply, or to
    * the original payload for the first recipient. */
  lemma {:induction false} ReplyChain(handle: Handler, payload: string, tokens: seq<string>, k: nat)
    requires Replies(handle, payload, tokens).Some? && k < |tokens|
    ensures var rs := Replies(handle, payload, tokens).value;
            handle(if k == 0 then payload else rs[k - 1], tokens[k]) == Some(rs[k])
    decreases k
  {
    RepliesCons(handle, payload, tokens);
    if k > 0 {
      var rs := Replies(handle, payload, tokens).value;
      var reply := handle(payload, tokens[0]).value;
      var later := Replies(handle, reply, tokens[1..]).value;
      ReplyChain(handle, reply, tokens[1..], k - 1);
      assert rs[k] == later[k - 1];
      assert rs[k - 1] == if k == 1 then reply else later[k - 2];
      assert tokens[1..][k - 1] == tokens[k];
    }
  }

  /** The replies are defined exactly when every handler call along the
    * chain is. */
  lemma {:induction false} RepliesDefined(handle: Handler, payload: string, tokens: seq<string>)
    ensures Replies(handle, payload, tokens).None? <==>
              tokens != [] && (handle(payload, tokens[0]).None?
                               || Replies(handle, handle(payload, tokens[0]).value, tokens[1..]).None?)
  {
  }

  /** For the server's handler: the reply to the k-th recipient is the
    * dispatcher's answer to the previous reply, read back as a request (the
    * original payload for the first recipient). */
  lemma RecipientReply(parse: Parser, payload: string, tokens: seq<string>, k: nat)
    requires Replies(Answer(parse), payload, tokens).Some? && k < |tokens|
    ensures var rs := Replies(Answer(parse), payload, tokens).value;
            var input := if k == 0 then payload else rs[k - 1];
            parse(input).Some? && Answerable(parse(input).value)
            && rs[k] == CompareAndPerformAction(parse(input).value, tokens[k])
  {
    ReplyChain(Answer(parse), payload, tokens, k);
  }

  /** A reply that the handler maps to itself, whatever the token, is
    * repeated to every later recipient. */
  lemma {:induction false} FixedPointReplies(handle: Handler, payload: string, x: string, tokens: seq<string>)
    requires forall t :: handle(payload, t) == Some(x)
    requires forall t :: handle(x, t) == Some(x)
    ensures Replies(handle, payload, tokens) == Some(seq(|tokens|, _ => x))
    decreases |tokens|
  {
    if tokens != [] {
      assert handle(payload, tokens[0]) == Some(x);
      FixedPointReplies(handle, x, x, tokens[1..]);
      var rest := seq(|tokens[1..]|, _ => x);
      assert Replies(handle, payload, tokens) == Some([x] + rest);
      assert seq(|tokens|, _ => x) == [x] + rest;
    } else {
      assert seq(|tokens|, _ => x) == [];
    }
  }

  /** The pop-up request: if the constant reply reads back as the same
    * request, every recipient receives that constant text. */
  lemma PopUpRepliesConstant(parse: Parser, payload: string, tokens: seq<string>)
    requires parse(payload).Some? && "action" in parse(payload).value
    requires parse(payload).value["action"] == PopUpTag
    requires parse(UserCreationPopUpDetails()) == Some(map["action" := PopUpTag])
    ensures Replies(Answer(parse), payload, tokens) == Some(seq(|tokens|, _ => UserCreationPopUpDetails()))
  {
    var x := UserCreationPopUpDetails();
    assert PopUpTag != LogInTag && PopUpTag != UserCreateTag;
    forall t ensures Answer(parse)(payload, t) == Some(x) {
      assert CompareAndPerformAction(parse(payload).value, t) == x;
    }
    forall t ensures Answer(parse)(x, t) == Some(x) {
      assert CompareAndPerformAction(map["action" := PopUpTag], t) == x;
    }
    FixedPointReplies(Answer(parse), payload, x, tokens);
  }

  /** A log-in message reaching two or more connections: the second handler
    * call reads the log-in reply, which has no "username" member, so the
    * message has no defined reply. */
  lemma LogInTwiceUnanswerable(parse: Parser, payload: string, tokens: seq<string>)
    requires |tokens| >= 2
    requires parse(payload).Some? && Answerable(parse(payload).value)
    requires parse(payload).value["action"] == LogInTag
    requires parse(LogIn(parse(payload).value["username"], parse(payload).value["password"], tokens[0]))
               == Some(map["token" := tokens[0], "message" := WelcomeMessage, "status" := "True", "action" := LogInTag])
    ensures Replies(Answer(parse), payload, tokens) == None
  {
    var req := parse(payload).value;
    var first := LogIn(req["username"], req["password"], tokens[0]);
    var back := map["token" := tokens[0], "message" := WelcomeMessage, "status" := "True", "action" := LogInTag];
    assert Answer(parse)(payload, tokens[0]) == Some(first);
    assert parse(first) == Some(back);
    assert "username" !in back;
    assert Answer(parse)(first, tokens[1]) == None;
    RepliesDefined(Answer(parse), first, tokens[1..]);
    RepliesDefined(Answer(parse), payload, tokens);
  }

  /** A message whose tag has no handler reaching two or more connections:
    * the first reply is the empty text, which is not a JSON object. */
  lemma EmptyReplyUnanswerable(parse: Parser, payload: string, tokens: seq<string>)
    requires |tokens| >= 2
    requires parse(payload).Some? && Answerable(parse(payload).value)
    requires parse(payload).value["action"] != LogInTag && parse(payload).value["action"] != PopUpTag
    requires parse("") == None
    ensures Replies(Answer(parse), payload, tokens) == None
  {
    assert Answer(parse)(payload, tokens[0]) == Some("");
    assert Answer(parse)("", tokens[1]) == None;
    RepliesDefined(Answer(parse), "", tokens[1..]);
    RepliesDefined(Answer(parse), payload, tokens);
  }

  // ---------------------------------------------------------------------
  // The frames one message produces.

  /** The i-th recipient gets the i-th reply. */
  function Broadcast(to: seq<Conn>, replies: seq<string>): (r: seq<Send>)
    requires |to| == |replies|
    ensures |r| == |to|
    ensures forall i :: 0 <= i < |r| ==> r[i] == Send(to[i], replies[i])
  {
    if to == [] then [] else Broadcast(to[..|to| - 1], replies[..|replies| - 1]) + [Send(to[|to| - 1], replies[|replies| - 1])]
  }

  /** Broadcasting over the registry sends exactly one frame to each member,
    * in ascending handle order; an empty registry gets no frame. */
  lemma OneFramePerMember(s: set<Conn>, replies: seq<string>)
    requires |replies| == |s|
    ensures |Broadcast(Order(s), replies)| == |s|
    ensures forall c :: c in s <==> exists i :: 0 <= i < |s| && Broadcast(Order(s), replies)[i].to == c
    ensures forall i, j :: 0 <= i < j < |s| ==> Broadcast(Order(s), replies)[i].to < Broadcast(Order(s), replies)[j].to
  {
    OrderEnumerates(s);
    var b := Broadcast(Order(s), replies);
    forall c | c in s ensures exists i :: 0 <= i < |s| && b[i].to == c {
      var i :| 0 <= i < |Order(s)| && Order(s)[i] == c;
      assert b[i].to == c;
    }
  }

  // ---------------------------------------------------------------------
  // The server.

  class Server {
    /** Actions pushed by the callbacks and not yet handled, oldest first. */
    var actions: seq<Action>
    /** The registered connections. */
    var connections: set<Conn>
    /** The frames handed to the transport so far. */
    ghost var sent: seq<Send>
    /** Every action ever pushed, and the ones already handled. */
    ghost var enqueued: seq<Action>
    ghost var handled: seq<Action>
    /** The JSON reader used on message payloads, and the handler built on
      * it and the dispatcher. */
    const parse: Parser
    const handle: Handler

    /** Handled actions are exactly a prefix of the pushed ones (first in,
      * first out), and the registry is the result of handling them. */
    ghost predicate Valid()
      reads this
    {
      && handled + actions == enqueued
      && connections == Registry(handled)
      && handle == Answer(parse)
    }

    constructor (parse: Parser)
      ensures Valid() && this.parse == parse
      ensures actions == [] && connections == {} && sent == [] && enqueued == [] && handled == []
    {
      this.parse := parse;
      handle := Answer(parse);
      actions, connections := [], {};
      sent, enqueued, handled := [], [], [];
    }

    method Push(a: Action)
      requires Valid()
      modifies this
      ensures Valid()
      ensures actions == old(actions) + [a] && enqueued == old(enqueued) + [a]
      ensures connections == old(connections) && sent == old(sent) && handled == old(handled)
    {
      actions := actions + [a];
      enqueued := enqueued + [a];
    }

    /** A connection opened: queue its SUBSCRIBE. */
    method OnOpen(hdl: Conn)
      requires Valid()
      modifies this
      ensures Valid()
      ensures actions == old(actions) + [Subscribe(hdl)] && enqueued == old(enqueued) + [Subscribe(hdl)]
      ensures connections == old(connections) && sent == old(sent) && handled == old(handled)
    {
      Push(Subscribe(hdl));
    }

    /** A connection closed: queue its UNSUBSCRIBE. */
    method OnClose(hdl: Conn)
      requires Valid()
      modifies this
      ensures Valid()
      ensures actions == old(actions) + [Unsubscribe(hdl)] && enqueued == old(enqueued) + [Unsubscribe(hdl)]
      ensures connections == old(connections) && sent == old(sent) && handled == old(handled)
    {
      Push(Unsubscribe(hdl));
    }

    /** A message arrived: queue it with its sender and payload. */
    method OnMessage(hdl: Conn, payload: string)
      requires Valid()
      modifies this
      ensures Valid()
      ensures actions == old(actions) + [Message(hdl, payload)] && enqueued == old(enqueued) + [Message(hdl, payload)]
      ensures connections == old(connections) && sent == old(sent) && handled == old(handled)
    {
      Push(Message(hdl, payload));
    }

    /** The state between popping `a` and handling it: `a` already counts
      * as handled, and the registry still lacks its effect. */
    ghost predicate Popped(a: Action)
      reads this
    {
      && handled + actions == enqueued
      && Registry(handled) == Update(connections, a)
      && handle == Answer(parse)
    }

    /** Takes the oldest action off the queue. Only `Step` calls it: the
      * registry is not yet updated for the action, so the server is in the
      * `Popped` state until `Step` handles it. */
    method Pop() returns (a: Action)
      requires Valid() && actions != []
      modifies this`actions, this`handled
      ensures a == old(actions[0]) && actions == old(actions[1..]) && handled == old(handled) + [a]
      ensures Popped(a)
    {
      a := actions[0];
      actions := actions[1..];
      handled := handled + [a];
      assert handled[..|handled| - 1] == old(handled);
      Assoc(old(handled), [a], actions);
    }

    /** One turn of the processing loop: pop the oldest action and handle
      * it. `tokens` are the tokens the handler calls would draw, one per
      * registered connection. */
    method Step(tokens: seq<string>)
      requires Valid() && actions != []
      requires actions[0].Message? ==>
                 |tokens| == |connections| && Replies(handle, actions[0].payload, tokens).Some?
      modifies this
      ensures Valid()
      ensures actions == old(actions[1..]) && handled == old(handled) + [old(actions[0])]
      ensures enqueued == old(enqueued)
      ensures connections == Update(old(connections), old(actions[0]))
      ensures !old(actions[0]).Message? ==> sent == old(sent)
      ensures old(actions[0]).Message? ==>
                sent == old(sent) + Broadcast(Order(old(connections)),
                                              Replies(handle, old(actions[0]).payload, tokens).value)
    {
      var a := Pop();
      match a
      case Subscribe(h) =>
        connections := connections + {h};
      case Unsubscribe(h) =>
        connections := connections - {h};
      case Message(_, payload) =>
        AnswerAll(payload, tokens);
    }

    /** The MESSAGE branch: walk the registry in order; for each connection,
      * parse the current payload, dispatch it, write the reply back over the
      * payload and send it to that connection. */
    method AnswerAll(payload: string, tokens: seq<string>)
      requires |tokens| == |connections| && Replies(handle, payload, tokens).Some?
      modifies this`sent
      ensures sent == old(sent) + Broadcast(Order(connections), Replies(handle, payload, tokens).value)
    {
      ghost var before := sent;
      var remaining := connections;
      ghost var done: seq<Conn> := [];
      ghost var prefix: seq<string> := [];
      var current := payload;
      var i := 0;
      while remaining != {}
        invariant remaining <= connections && i == |done| == |prefix|
        invariant Order(connections) == done + Order(remaining)
        invariant i + |remaining| == |tokens|
        invariant Replies(handle, current, tokens[i..]).Some?
        invariant Replies(handle, payload, tokens).value == prefix + Replies(handle, current, tokens[i..]).value
        invariant sent == before + Broadcast(done, prefix)
        decreases |remaining|
      {
        MinExists(remaining);
        var c :| c in remaining && IsLeast(c, remaining);
        NextInOrder(remaining, c);
        NextReply(handle, current, tokens, i);
        var reply := handle(current, tokens[i]).value;
        BroadcastSnoc(done, prefix, c, reply);
        Assoc(before, Broadcast(done, prefix), [Send(c, reply)]);
        sent := sent + [Send(c, reply)];
        Assoc(prefix, [reply], Replies(handle, reply, tokens[i + 1..]).value);
        Assoc(done, [c], Order(remaining - {c}));
        done, prefix := done + [c], prefix + [reply];
        current := reply;
        remaining := remaining - {c};
        i := i + 1;
      }
      assert tokens[i..] == [];
      assert prefix + [] == prefix;
      assert Replies(handle, payload, tokens).value == prefix;
      assert done + [] == done;
      assert Order(connections) == done;
    }
  }

  // Proof steps.

  lemma NextInOrder(s: set<Conn>, c: Conn)
    requires IsLeast(c, s)
    ensures Order(s) == [c] + Order(s - {c})
  {
    assert Min(s) <= c && c <= Min(s);
  }

  lemma NextReply(handle: Handler, current: string, tokens: seq<string>, i: nat)
    requires i < |tokens| && Replies(handle, current, tokens[i..]).Some?
    ensures handle(current, tokens[i]).Some?
    ensures var reply := handle(current, tokens[i]).value;
            Replies(handle, reply, tokens[i + 1..]).Some?
            && Replies(handle, current, tokens[i..]).value == [reply] + Replies(handle, reply, tokens[i + 1..]).value
  {
    RepliesCons(handle, current, tokens[i..]);
    assert tokens[i..][0] == tokens[i];
    assert tokens[i..][1..] == tokens[i + 1..];
  }

  /** Unfolds one step of `Replies`. */
  lemma RepliesCons(handle: Handler, payload: string, tokens: seq<string>)
    requires tokens != [] && Replies(handle, payload, tokens).Some?
    ensures handle(payload, tokens[0]).Some?
    ensures var reply := handle(payload, tokens[0]).value;
            Replies(handle, reply, tokens[1..]).Some?
            && Replies(handle, payload, tokens).value == [reply] + Replies(handle, reply, tokens[1..]).value
  {
  }

  lemma BroadcastSnoc(to: seq<Conn>, replies: seq<string>, c: Conn, reply: string)
    requires |to| == |replies|
    ensures Broadcast(to + [c], replies + [reply]) == Broadcast(to, replies) + [Send(c, reply)]
  {
    assert (to + [c])[..|to|] == to;
    assert (replies + [reply])[..|replies|] == replies;
  }
}
