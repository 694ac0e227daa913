// The action dispatcher of broadcast_server: a parsed request, read as a map
// from keys to string values, selects a handler by its "action" tag and
// yields the JSON response text.

module ActionHandler {
  import opened ResponseJson

  /** A parsed request: the string members of the JSON object. */
  type Request = map<string, string>

  const LogInTag := "log_in"
  const UserCreateTag := "user_create"
  const PopUpTag := "get_user_creation_pop_up_details"
  const WelcomeMessage := "Welcome to Oracle."

  /** The members the "user_create" branch reads from the request. */
  const UserCreateKeys := ["username", "firstname", "lastname", "is_supervisor",
                           "supervisor_id", "user_status_id", "skill_id"]

  /** Every key the dispatcher reads is present. Reading a missing member is
    * undefined behaviour in the source, so callers must guarantee this. */
  predicate Answerable(req: Request)
  {
    && "action" in req
    && (req["action"] == LogInTag ==> "username" in req && "password" in req)
    && (req["action"] == UserCreateTag ==>
          forall i :: 0 <= i < |UserCreateKeys| ==> UserCreateKeys[i] in req)
  }

  /** The log-in response: four fixed pairs built by the serialiser, the
    * token drawn by the caller. The credentials are not checked. */
  function LogIn(username: string, password: string, token: string): (r: string)
    ensures r == "{" + (Member("token", token) + "," + Member("message", WelcomeMessage) + ","
                        + Member("status", "True") + "," + Member("action", LogInTag)) + "}"
  {
    var fields := ["token", token, "message", WelcomeMessage, "status", "True", "action", LogInTag];
    LogInText(fields, token);
    Serialized(fields)
  }

  /** The pop-up details response, a hard-coded text that is exactly the
    * serialisation of the single pair action / get_user_creation_pop_up_details. */
  function UserCreationPopUpDetails(): (r: string)
    ensures r == "{" + Member("action", PopUpTag) + "}"
    ensures r == Serialized(["action", PopUpTag])
  {
    PopUpText(PopUpTag);
    SerializedPairs(["action", PopUpTag]);
    assert Members(["action", PopUpTag], 2) == Member("action", PopUpTag);
    "{\"action\":\"" + PopUpTag + "\"}"
  }

  /** The dispatcher: the "action" tag selects the handler; any tag other
    * than "log_in" and "get_user_creation_pop_up_details", "user_create"
    * included, yields the empty text. */
  function CompareAndPerformAction(req: Request, token: string): (r: string)
    requires Answerable(req)
    ensures r != "" <==> req["action"] == LogInTag || req["action"] == PopUpTag
    ensures req["action"] == LogInTag ==> r == LogIn(req["username"], req["password"], token)
    ensures req["action"] == PopUpTag ==> r == UserCreationPopUpDetails()
    ensures r != "" ==> EndsWith(r, Member("action", req["action"]) + "}")
  {
    var action := req["action"];
    if action == LogInTag then
      LogInEndsWithTag(req["username"], req["password"], token);
      LogIn(req["username"], req["password"], token)
    else if action == UserCreateTag then
      ""
    else if action == PopUpTag then
      PopUpEndsWithTag();
      UserCreationPopUpDetails()
    else
      ""
  }

  /** Only the log-in handler draws on the token: for every other tag the
    * response is the same whatever token is supplied. */
  lemma TokenOnlyForLogIn(req: Request, t1: string, t2: string)
    requires Answerable(req) && req["action"] != LogInTag
    ensures CompareAndPerformAction(req, t1) == CompareAndPerformAction(req, t2)
  {
  }

  // Proof steps.

  lemma LogInText(fields: seq<string>, token: string)
    requires fields == ["token", token, "message", WelcomeMessage, "status", "True", "action", LogInTag]
    ensures Serialized(fields) ==
              "{" + (Member("token", token) + "," + Member("message", WelcomeMessage) + ","
                     + Member("status", "True") + "," + Member("action", LogInTag)) + "}"
  {
    SerializedPairs(fields);
    var m1, m2, m3, m4 := Member("token", token), Member("message", WelcomeMessage),
                          Member("status", "True"), Member("action", LogInTag);
    assert Members(fields, 2) == m1;
    assert Members(fields, 4) == m1 + "," + m2;
    assert Members(fields, 6) == m1 + "," + m2 + "," + m3;
    assert Members(fields, 8) == m1 + "," + m2 + "," + m3 + "," + m4;
  }

  /** The hard-coded pop-up text regrouped as one member between braces. */
  lemma PopUpText(tag: string)
    ensures "{\"action\":\"" + tag + "\"}" == "{" + Member("action", tag) + "}"
  {
    assert "{\"action\":\"" == "{" + (Quoted("action") + ":" + "\"");
    assert "\"}" == "\"" + "}";
    var key := Quoted("action") + ":";
    assert Member("action", tag) == key + ("\"" + tag + "\"");
    Assoc("{" + key + "\"", tag, "\"" + "}");
  }

  lemma LogInEndsWithTag(username: string, password: string, token: string)
    ensures EndsWith(LogIn(username, password, token), Member("action", LogInTag) + "}")
  {
    var head := "{" + (Member("token", token) + "," + Member("message", WelcomeMessage) + ","
                       + Member("status", "True") + ",");
    Assoc(head, Member("action", LogInTag), "}");
    EndsWithAppend(head, Member("action", LogInTag) + "}");
  }

  lemma PopUpEndsWithTag()
    ensures EndsWith(UserCreationPopUpDetails(), Member("action", PopUpTag) + "}")
  {
    EnclosedEndsWith(UserCreationPopUpDetails(), Member("action", PopUpTag));
  }

  lemma EnclosedEndsWith(r: string, m: string)
    requires r == "{" + m + "}"
    ensures EndsWith(r, m + "}")
  {
    Assoc("{", m, "}");
    EndsWithAppend("{", m + "}");
  }
}
