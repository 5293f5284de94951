# Slash-command dispatcher: registry and request authorisation

This project models the request path of a webhook that serves chat-platform
slash commands (`routes/index.js`). It has two parts.

- **Handler registry.** A dictionary, `handlersObj`, maps each command name
  to a handler instance. Line 6 assigns it without a declaration (the `var`
  list ends at line 5), so it is an implicit global rather than a
  module-local variable. It starts empty when the module loads. Start-up
  then walks the handler manifest in order. For each entry it looks up the token in the
  environment under the entry's variable name and constructs the handler
  with that token. If construction succeeds, the dictionary entry for the
  command is set, and a later entry for the same command replaces it. If
  loading or construction throws, the failure is logged and the dictionary
  stays as it was.
- **Request handling.** A `POST /svc/slack/:command` request is checked in a
  fixed order:
  1. An absent, empty or unregistered command is rejected with status 404
     and the message "Command Not Found".
  2. Otherwise a request token that is falsy, or not strictly equal to the
     handler's token, is rejected with status 401 and the message
     "Unauthorized Request".
  3. Otherwise the handler is invoked. When it completes with
     `(err, message)`, the endpoint sends `err` if it is truthy and
     `message` otherwise.

The files are:

- `js_values.dfy` (module `JsValues`) covers the JavaScript semantics the
  checks depend on: a `JsValue` datatype, `Truthy` (ToBoolean) and
  `StrictEquals` (`===`). A request token or a handler's callback arguments
  may therefore be `undefined`, `null`, `false`, `0`, `NaN`, `""` or an
  object, and each case is handled as JavaScript handles it.
- `registration.dfy` (module `Registration`) holds the `Registry` class. Its
  `handlers` map field is the global `handlersObj` dictionary. `RegisterHandler`
  updates the map in place, and `RegisterAll` is the loop over the manifest.
  The value-level specification is `RegisterEach`, a left fold of one
  registration step over the manifest. Lemmas about it say what each command
  ends up mapped to, and that a failed entry can be dropped without effect.
- `routes.dfy` (module `Routes`) holds the request path as pure functions
  over the registry's map: `Authenticate`, `Complete` and
  `HandleSlackRequest`. It also holds the lemmas for the ordering of the
  checks and an end-to-end lemma from start-up to authorisation.

The source's ERRORS table is the constants `NOT_FOUND_MESSAGE` and
`UNAUTHORIZED_MESSAGE`. The construction outcome of each manifest entry
(`Constructed` or `Threw`) is an input, because the model cannot see the
handler packages. A constructed handler's token is taken to be the token it
was constructed with.

## Model

| member | source | states |
|---|---|---|
| `Routes.Authenticate` | routes/index.js:36-53 | A command is rejected as not found exactly when it is absent, empty or has no registry entry. A request is dispatched exactly when the command is known, the token is a non-empty string and it equals the handler's stored token. A dispatch carries that command's handler. |
| `Routes.Complete` | routes/index.js:57-62 | Exactly one of `err` and `message` is sent. `message` is sent unchanged when `err` is one of `undefined`, `null`, `false`, `0`, `NaN` or `""`; any other `err` is sent in its place. |
| `Routes.HandleSlackRequest` | routes/index.js:36-63 | A response is 404 "Command Not Found" exactly when the command is unknown. It is 401 "Unauthorized Request" exactly when the command is known and the token is missing, empty, not a string or different. The handler's completion is sent exactly when authentication dispatches, and it sends `err` if truthy, else `message`. |
| `Routes.UnknownCommandIgnoresToken` | routes/index.js:42-53 | The command check comes first: an unknown command gets 404 whatever the token, and never 401. |
| `Routes.UnsetTokenNeverAuthorised` | routes/index.js:49 | A handler whose stored token is unset or empty authorises no request. |
| `Routes.FalsyErrorsSendMessage` | routes/index.js:58-61 | If the callback's error is `undefined`, `null`, `false`, `0`, `NaN` or `""`, the message is sent. An error object, `true`, a non-zero number or a non-empty string is sent in place of the message. |
| `Routes.StartupAuthorisation` | routes/index.js:32-53 | After start-up, a command with no successfully constructed manifest entry is answered 404. Otherwise the last such entry's handler decides: it dispatches exactly the non-empty token found in the environment under that entry's variable name. |
| `JsValues.Truthy` | routes/index.js:42-58 | The `!x` and `if (x)` tests treat exactly `undefined`, `null`, `false`, `0`, `NaN` and `""` as false. |
| `JsValues.StrictEquals` | routes/index.js:49 | `===` is defined type by type: both undefined, both null, or the same type with the same boolean, number, string or object identity; values of different types are never equal. This case analysis agrees with plain value equality for every value except `NaN`, which equals nothing. |
| `Registration.Register` | routes/index.js:65-78 | A successful registration adds exactly the entry's command to the keys and stores the token looked up by the entry's variable name. A throw leaves the keys as they were. Every other command keeps its handler. |
| `Registration.RegisterEachKeys` | routes/index.js:32 | Registration never removes a command. After the in-order walk over the manifest, the registered commands are exactly the earlier ones plus the commands of the entries whose construction succeeded. |
| `Registration.LastBuilt` | routes/index.js:32 | Gives the index of the last manifest entry for a command whose construction succeeded. No later entry for that command succeeded, and it is absent exactly when no entry for the command succeeded. |
| `Registration.RegisterEachLookup` | routes/index.js:32-77 | After registering the manifest in order, each command maps to the handler built from the last successful entry for it, with that entry's environment token. A command with no successful entry keeps its earlier mapping, or stays absent. |
| `Registration.FailedEntryIsSkipped` | routes/index.js:71-77 | Removing an entry whose construction threw does not change the resulting registry. The other entries are still registered in the same order. |
| `Registration.Registry.constructor` | routes/index.js:6 | The handler dictionary starts empty. |
| `Registration.Registry.RegisterHandler` | routes/index.js:65-78 | On success, the command's entry becomes a handler holding the token looked up by the entry's variable name, and every other entry is unchanged. On a throw, the whole dictionary is unchanged. |
| `Registration.Registry.RegisterAll` | routes/index.js:32 | The dictionary after the loop is the in-order fold of single registrations over the manifest. |
| `Registration.Startup` | routes/index.js:5-32 | The registry after module load is the fold of the manifest over an empty dictionary. |

## Left out

- Express routing, `res.send`/`next` and the HTTP plumbing are framework I/O. A rejection is modelled as the status and message passed to `next`, and a completion as the value passed to `res.send`.
- The `/_health` route (routes/index.js:25-29) returns a constant and is not modelled.
- `nconf.env()`/`nconf.get` are modelled as a given map from variable name to value. nconf's nested `a:b` keys are not modelled.
- Dynamic `require(pkg)` and `new SlashCommandHandler(token, opts)` are foreign calls. Their outcome per manifest entry is an input. The handler packages are not part of this model, so each instance's `token` is taken to be the constructor's token argument. Options are an opaque string map passed through unchanged.
- The handlers' own `handle` implementations and when they call back are external. The `(err, message)` the callback receives is an input, and a handler is assumed to call back once.
- `console.log` calls (routes/index.js:56, 76) are left out as logging.
- The source's dictionary is a plain JavaScript object, so prototype keys such as `constructor` or `__proto__` are truthy even when unregistered. The registry is modelled as a clean map, so such keys count as unregistered. Registering such a key is not modelled either: a manifest command named `__proto__` replaces the dictionary's prototype rather than adding an entry, after which an unregistered command naming one of that handler's properties (such as `handle`) passes the command check and is answered 401 instead of 404.
- The registry is an implicit global (`handlersObj`, routes/index.js:6), so any other module in the process can read, replace or mutate it. The model treats it as state owned by the `Registry` object and does not capture outside code reaching it through the global object.
- The handler manifest module (`../handlers`) is not part of this model. The manifest is an input sequence of descriptors.
- JavaScript numbers are modelled as integers plus NaN. Fractional values and the sign of zero are not distinguished, which makes no difference to truthiness or to comparing a token against a string.
