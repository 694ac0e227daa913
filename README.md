# broadcast_server, modelled in Dafny

This project models the event-processing core of the WebSocket back end in
`backend/server.cpp`. The core is the class `broadcast_server`:

- The transport's open, close and message callbacks each push one action
  (SUBSCRIBE, UNSUBSCRIBE or MESSAGE) onto a FIFO queue.
- A processing loop pops the oldest action and handles it:
  - SUBSCRIBE inserts the connection handle into the ordered set of
    registered connections.
  - UNSUBSCRIBE erases the handle.
  - MESSAGE walks the set. For every registered connection it parses the
    message payload as JSON, hands the request to the action dispatcher,
    writes the reply back over the message's payload and sends the message
    to that connection.
- The action dispatcher reads the request's `action` member:
  - `log_in` answers with a fixed four-pair JSON object that carries a
    fresh token.
  - `get_user_creation_pop_up_details` answers with a constant object.
  - Every other tag, `user_create` included, answers with the empty text.
- The replies are built by a small serialiser that turns an alternating
  key/value list into a flat JSON object with no escaping.

The model has three modules, one per component:

- `ResponseJson` (`response_json.dfy`) is the serialiser.
  - `SerializeResponse` is the loop of the source. It is proved equal to the
    function `Serialized`.
  - `Serialized` is related to an independent description: the JSON object
    of the list's consecutive pairs.
- `ActionHandler` (`action_handler.dfy`) holds the log-in handler, the
  pop-up handler and the dispatcher, as pure functions over a parsed request
  (`map<string, string>`).
- `BroadcastServer` (`broadcast_server.dfy`) is the queue and the registry,
  as a class.
  - `actions` is a `seq` and `connections` is a `set`.
  - Ghost fields record what the transport was handed (`sent`) and the
    history of pushed and handled actions (`enqueued`, `handled`). `Valid()`
    ties them together: handled actions are a prefix of the pushed ones, and
    the registry is the fold of `Update` over the handled actions.

The set iteration order of the source's ordered set of handles is modelled
as ascending order of `Conn = nat` (`Order`).

JSON parsing is a parameter of the server (`parse`). It yields the string
members of the object a text holds; a text that is not a JSON object is
`None`. The token that `log_in` draws at random is also a
parameter: `Step` receives one token per handler call.

Inside the MESSAGE loop the payload is re-read on every iteration after it
has been overwritten with the previous reply (`backend/server.cpp:130-141`).
The first recipient therefore gets the dispatcher's answer to the message,
and the k-th recipient gets the answer to the (k-1)-th reply. `Replies`
models that chain and `ReplyChain`/`RecipientReply` state it. The model
follows the code here; it does not assume that every recipient receives the
same bytes. Consequences proved from the chain:
- `PopUpRepliesConstant`: the pop-up constant is a fixed point, so all
  recipients agree.
- `LogInTwiceUnanswerable`: a log-in message reaching two or more
  connections makes the second handler call read a `username` member that
  the log-in reply does not have.
- `EmptyReplyUnanswerable`: a message with any other tag reaching two or
  more connections makes the second call parse the empty text.

The source leaves both of these situations undefined. The model marks them
as `None`, and `Step` requires that the replies are defined.

The source has no error reply: a payload that does not parse, or a request
that lacks a member the dispatcher reads, is undefined behaviour there, not
an error response. The model states these as preconditions (`Answerable`,
`Replies(...).Some?`) and adds no error path.

## Model

| member | source | states |
|---|---|---|
| ResponseJson.Serialized | backend/server.cpp:156-171 | the output always starts with `{` and ends with `}`; the empty list gives `{}` |
| ResponseJson.SerializeResponse | backend/server.cpp:149-172 | the index loop that appends a quoted key and colon for even indices, and a quoted value followed by a comma (except after the last element) for odd indices, then the closing brace, returns exactly `Serialized(a)` |
| ResponseJson.SerializedPairs | backend/server.cpp:149-172 | a list of even length 2n serialises to the JSON object `{"k1":"v1",...,"kn":"vn"}` of its consecutive pairs, in list order, keys and values copied without escaping |
| ResponseJson.SerializedCommas | backend/server.cpp:157-169 | when no key or value contains a comma, a non-empty list of 2n elements yields exactly n - 1 commas |
| ResponseJson.DanglingKey | backend/server.cpp:157-170 | a list of odd length ends with its last key followed by `:}`: a key with no value, so the text is not valid JSON |
| ActionHandler.LogIn | backend/server.cpp:174-203 | for every username, password and token the reply is exactly `{"token":"<token>","message":"Welcome to Oracle.","status":"True","action":"log_in"}`, in that key order; the credentials play no part |
| ActionHandler.UserCreationPopUpDetails | backend/server.cpp:205-220 | the constant reply `{"action":"get_user_creation_pop_up_details"}` is the serialisation of the single pair action / get_user_creation_pop_up_details |
| ActionHandler.CompareAndPerformAction | backend/server.cpp:222-256 | the reply is non-empty if and only if the tag is `log_in` or `get_user_creation_pop_up_details`; `log_in` gives the log-in reply for the request's username and password; the pop-up tag gives the constant; any other tag, `user_create` included, gives the empty text; a non-empty reply ends with the member `"action":"<tag>"` and the closing brace; the `action` member (and, for `log_in`, `username` and `password`, for `user_create` its seven members) must be present |
| ActionHandler.TokenOnlyForLogIn | backend/server.cpp:222-256 | for every tag except `log_in` the reply does not depend on the token |
| BroadcastServer.Update | backend/server.cpp:117-122 | SUBSCRIBE leaves its handle registered and every other handle as it was; UNSUBSCRIBE leaves its handle unregistered and every other handle as it was; MESSAGE changes nothing; subscribing a registered handle or unsubscribing an unregistered one is a no-op |
| BroadcastServer.RegistryMembers | backend/server.cpp:117-122 | after handling a sequence of actions, a handle is registered if and only if some SUBSCRIBE for it was handled and no UNSUBSCRIBE for it came later |
| BroadcastServer.OrderEnumerates | backend/server.cpp:126-127 | the walk over the registry visits exactly its members, each once, in strictly ascending order |
| BroadcastServer.Handle | backend/server.cpp:130-138 | one handler call has a defined reply if and only if the current text parses and the request carries every member the dispatcher reads |
| BroadcastServer.ReplyChain | backend/server.cpp:126-142 | within one MESSAGE, the k-th reply is the handler applied to the (k-1)-th reply, or to the original payload for k = 0, with the k-th token |
| BroadcastServer.RecipientReply | backend/server.cpp:130-141 | for the server's handler, the k-th recipient's reply is the dispatcher's answer to the previous reply read back as a request (the original payload for the first recipient) |
| BroadcastServer.FixedPointReplies | backend/server.cpp:130-141 | if the handler maps the payload to a reply x and maps x to itself whatever the token, every recipient receives x |
| BroadcastServer.PopUpRepliesConstant | backend/server.cpp:130-141 | a pop-up request whose constant reply reads back as the pop-up request gives every recipient the same constant text |
| BroadcastServer.LogInTwiceUnanswerable | backend/server.cpp:130-141 | a log-in message reaching two or more connections has no defined reply chain: when the first reply, built with the token actually drawn, reads back as its four members, the second call reads that reply, which has no `username` member |
| BroadcastServer.EmptyReplyUnanswerable | backend/server.cpp:130-141 | a message with any other tag reaching two or more connections has no defined reply chain: the second call parses the empty text |
| BroadcastServer.Broadcast | backend/server.cpp:126-142 | one frame per recipient, in walk order; the i-th frame goes to the i-th recipient with the i-th reply |
| BroadcastServer.OneFramePerMember | backend/server.cpp:123-142 | a MESSAGE sends exactly one frame to each registered connection, in ascending handle order, and none to anything else; an empty registry gets no frame |
| BroadcastServer.Server.constructor | backend/server.cpp:54-62 | a new server has an empty queue, an empty registry and has sent nothing |
| BroadcastServer.Server.OnOpen | backend/server.cpp:79-85 | appends exactly one SUBSCRIBE for the handle to the back of the queue; registry and sent frames unchanged |
| BroadcastServer.Server.OnClose | backend/server.cpp:87-93 | appends exactly one UNSUBSCRIBE for the handle to the back of the queue; registry and sent frames unchanged |
| BroadcastServer.Server.OnMessage | backend/server.cpp:95-102 | appends exactly one MESSAGE with the handle and payload to the back of the queue; registry and sent frames unchanged |
| BroadcastServer.Server.Pop | backend/server.cpp:112-113 | takes the front action off the queue and returns it; the remaining queue is the old tail; the action joins the handled ones and the server is left in the `Popped` state, where the registry still lacks that action's effect |
| BroadcastServer.Server.Step | backend/server.cpp:104-147 | one turn of the processing loop needs a non-empty queue; it removes exactly the head, which joins the handled actions in enqueue order; the registry becomes `Update` of the old registry by that action; SUBSCRIBE and UNSUBSCRIBE send nothing; MESSAGE sends the reply chain to the old registry's members in walk order |
| BroadcastServer.Server.AnswerAll | backend/server.cpp:123-142 | the MESSAGE loop appends to the sent frames exactly `Broadcast(Order(connections), Replies(handle, payload, tokens))` and leaves everything else unchanged |

## Left out

- Threads, the two mutexes and the condition variable: the model is single-threaded. The wait for a non-empty queue becomes the precondition `actions != []` of `Step`. The endless `while(1)` is one call of `Step` per turn.
- The websocketpp transport (`init_asio`, `listen`, `start_accept`, `run`, the handler registration and `send`). Sends are appended to the ghost log `sent`. A failing send and per-connection send errors are not modelled.
- JSON parsing with rapidjson (`parse_json`) is the abstract parameter `parse`. Only requests whose members are strings are represented.
- `generate_random_string`: the token is a parameter, one per handler call. The model claims nothing about its length or alphabet.
- The copy of the payload into a variable-length character array at `backend/server.cpp:131-135`: its result is never used.
- The dummy supervisor and user-status lists in `get_user_creation_pop_up_details`: they are built and discarded.
- The `user_create` branch reads seven members and discards them. The model keeps only its requirement that they are present (`Answerable`).
- The `std::cout` logging and `main`.
- `frontend/js/socket.js`, the browser user interface, is not part of this model.
- Connection handles are compared by the transport's owner ordering. The model uses natural numbers in ascending order.
- BroadcastServer.Replies: states only that a defined chain has one reply per token. What each reply is is stated by `ReplyChain` and `RecipientReply`.
