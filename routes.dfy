/** The slash-command endpoint: find the command's handler, check the
    request's token against the handler's, dispatch, and send what the
    handler reports back. */
module Routes {
  import opened JsValues
  import opened Registration

  /** The two error messages the endpoint can answer with. */
  const NOT_FOUND_MESSAGE := "Command Not Found"
  const UNAUTHORIZED_MESSAGE := "Unauthorized Request"

  /** The decision taken before any handler runs. */
  datatype Outcome =
    | NotFound
    | Unauthorized
    | Dispatch(command: string, handler: Handler)
  {
    /** HTTP status of a rejection. */
    function Status(): int
      requires !Dispatch?
    {
      if NotFound? then 404 else 401
    }

    /** Message of a rejection. */
    function Message(): string
      requires !Dispatch?
    {
      if NotFound? then NOT_FOUND_MESSAGE else UNAUTHORIZED_MESSAGE
    }
  }

  /** What goes back to the caller: an error handed to the framework with its
      status, or the value the handler's completion sends. */
  datatype Response =
    | ErrorStatus(status: int, message: string)
    | Sent(body: JsValue)

  /** The command names a registered handler (an absent or empty command
      names nothing). */
  predicate Known(reg: map<string, Handler>, command: Option<string>)
  {
    command.Some? && command.value != "" && command.value in reg
  }

  /** The checks made before dispatch: the command first, then the token.
      `command` is the path parameter (absent when there are no parameters),
      `token` the body's `token` field (null when there is no body). */
  function Authenticate(reg: map<string, Handler>, command: Option<string>, token: JsValue): (o: Outcome)
    ensures o.NotFound? <==> !Known(reg, command)
    ensures o.Dispatch? <==>
              Known(reg, command) && token.Str? && token.s != "" && reg[command.value].token == Some(token.s)
    ensures o.Dispatch? ==> o.command == command.value && o.handler == reg[command.value]
  {
    if command.None? || command.value == "" || command.value !in reg then
      NotFound
    else if !Truthy(token) || !StrictEquals(token, FromOption(reg[command.value].token)) then
      Unauthorized
    else
      Dispatch(command.value, reg[command.value])
  }

  /** The completion callback: the error when it is truthy, otherwise the
      message, and only one of the two. */
  function Complete(err: JsValue, message: JsValue): (sent: JsValue)
    ensures sent == err || sent == message
    ensures Truthy(err) ==> sent == err
    ensures !Truthy(err) ==> sent == message
    ensures sent == if err in {Undefined, Null, Bool(false), Num(0), NaN, Str("")} then message else err
  {
    if Truthy(err) then err else message
  }

  /** A whole request: `err` and `message` are what the handler passes to its
      completion callback; they are used only when the handler is invoked. */
  function HandleSlackRequest(reg: map<string, Handler>, command: Option<string>, token: JsValue,
                              err: JsValue, message: JsValue): (r: Response)
    ensures r == ErrorStatus(404, NOT_FOUND_MESSAGE) <==> !Known(reg, command)
    ensures r == ErrorStatus(401, UNAUTHORIZED_MESSAGE) <==>
              Known(reg, command) && (!token.Str? || token.s == "" || reg[command.value].token != Some(token.s))
    ensures r.Sent? <==> Authenticate(reg, command, token).Dispatch?
    ensures r.Sent? ==> r.body == (if Truthy(err) then err else message)
  {
    match Authenticate(reg, command, token)
    case Dispatch(_, _) => Sent(Complete(err, message))
    case rejected => ErrorStatus(rejected.Status(), rejected.Message())
  }

  /** The command check comes first: an unknown command is answered 404
      whatever the token, and never 401. */
  lemma UnknownCommandIgnoresToken(reg: map<string, Handler>, command: Option<string>, token: JsValue, err: JsValue, message: JsValue)
    requires !Known(reg, command)
    ensures HandleSlackRequest(reg, command, token, err, message) == ErrorStatus(404, NOT_FOUND_MESSAGE)
    ensures HandleSlackRequest(reg, command, token, err, message) != ErrorStatus(401, UNAUTHORIZED_MESSAGE)
  {
  }

  /** A handler whose token is unset or empty accepts no request at all. */
  lemma UnsetTokenNeverAuthorised(reg: map<string, Handler>, c: string, token: JsValue)
    requires c in reg && (reg[c].token == None || reg[c].token == Some(""))
    ensures !Authenticate(reg, Some(c), token).Dispatch?
  {
  }

  /** Handler-reported errors that JavaScript treats as false are ignored:
      the message is sent instead; an Error object, `true`, a non-zero number
      and a non-empty string are sent in place of the message. */
  lemma FalsyErrorsSendMessage(message: JsValue, id: nat, n: int, s: string)
    ensures Complete(Undefined, message) == message
    ensures Complete(Null, message) == message
    ensures Complete(Bool(false), message) == message
    ensures Complete(Num(0), message) == message
    ensures Complete(NaN, message) == message
    ensures Complete(Str(""), message) == message
    ensures Complete(Obj(id), message) == Obj(id)
    ensures Complete(Bool(true), message) == Bool(true)
    ensures n != 0 ==> Complete(Num(n), message) == Num(n)
    ensures s != "" ==> Complete(Str(s), message) == Str(s)
  {
  }

  /** End to end from start-up: a command is answered 404 unless some manifest
      entry for it was constructed; otherwise the handler of the last such
      entry decides, and it accepts exactly the non-empty token found in the
      environment under that entry's variable name. */
  lemma StartupAuthorisation(manifest: seq<Descriptor>, env: Env, outcomes: seq<Construction>, c: string, token: JsValue)
    requires |manifest| == |outcomes|
    ensures var o := Authenticate(RegisterEach(map[], manifest, env, outcomes), Some(c), token);
            match LastBuilt(manifest, outcomes, c)
            case None => o == NotFound
            case Some(i) =>
              o.Dispatch? <==>
                c != "" && token.Str? && token.s != ""
                && manifest[i].tokenVar in env && env[manifest[i].tokenVar] == token.s
  {
    RegisterEachLookup(map[], manifest, env, outcomes, c);
  }
}
