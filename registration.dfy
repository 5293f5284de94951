/** The handler registry built at start-up: the global `handlersObj`
    dictionary from command name to handler instance, filled by walking the
    handler manifest in order and registering each entry whose handler could
    be constructed. */
module Registration {
  import opened JsValues

  /** Handler options, passed through to the handler untouched. */
  type Options = map<string, string>

  /** The process environment, from variable name to value. */
  type Env = map<string, string>

  /** One manifest entry: the command it serves, the handler package, the
      name of the environment variable holding its token, and its options. */
  datatype Descriptor = Descriptor(command: string, pkg: string, tokenVar: string, options: Options)

  /** A constructed handler instance. Its `token` is the token it was
      constructed with, absent when the environment variable is unset. */
  datatype Handler = Handler(pkg: string, token: Option<string>, options: Options)

  /** What loading the package and calling its constructor did. */
  datatype Construction = Constructed | Threw

  /** Looking up a token by variable name; unset variables give nothing. */
  function LookupToken(env: Env, name: string): Option<string>
  {
    if name in env then Some(env[name]) else None
  }

  /** The handler built for a descriptor, with the token from the environment. */
  function Build(d: Descriptor, env: Env): Handler
  {
    Handler(d.pkg, LookupToken(env, d.tokenVar), d.options)
  }

  /** One registration step on the dictionary's value. */
  function Register(m: map<string, Handler>, d: Descriptor, env: Env, outcome: Construction): (r: map<string, Handler>)
    ensures r.Keys == if outcome == Constructed then m.Keys + {d.command} else m.Keys
    ensures outcome == Constructed ==> r[d.command].token == LookupToken(env, d.tokenVar)
    ensures forall c :: c in m && (c != d.command || outcome == Threw) ==> r[c] == m[c]
  {
    if outcome == Constructed then m[d.command := Build(d, env)] else m
  }

  /** The dictionary after registering every manifest entry in order,
      `outcomes[i]` being what constructing `ds[i]`'s handler did. */
  function RegisterEach(m: map<string, Handler>, ds: seq<Descriptor>, env: Env, outcomes: seq<Construction>): map<string, Handler>
    requires |ds| == |outcomes|
    decreases |ds|
  {
    if ds == [] then m
    else
      var n := |ds| - 1;
      Register(RegisterEach(m, ds[..n], env, outcomes[..n]), ds[n], env, outcomes[n])
  }

  /** Registration never removes a command: the registered commands are the
      earlier ones plus those of the entries whose construction succeeded. */
  lemma {:induction false} RegisterEachKeys(m: map<string, Handler>, ds: seq<Descriptor>, env: Env, outcomes: seq<Construction>)
    requires |ds| == |outcomes|
    ensures RegisterEach(m, ds, env, outcomes).Keys
         == m.Keys + set i | 0 <= i < |ds| && outcomes[i] == Constructed :: ds[i].command
    decreases |ds|
  {
    if ds != [] {
      var n := |ds| - 1;
      RegisterEachKeys(m, ds[..n], env, outcomes[..n]);
      assert (set i | 0 <= i < |ds| && outcomes[i] == Constructed :: ds[i].command)
          == (set i | 0 <= i < n && outcomes[..n][i] == Constructed :: ds[..n][i].command)
             + (if outcomes[n] == Constructed then {ds[n].command} else {});
    }
  }

  /** Whether entry `i` registers a handler under command `c`. */
  predicate BuiltAt(ds: seq<Descriptor>, outcomes: seq<Construction>, c: string, i: int)
    requires |ds| == |outcomes|
  {
    0 <= i < |ds| && ds[i].command == c && outcomes[i] == Constructed
  }

  /** The index of the last manifest entry that registers a handler under
      command `c`, if there is one. */
  function LastBuilt(ds: seq<Descriptor>, outcomes: seq<Construction>, c: string): (r: Option<nat>)
    requires |ds| == |outcomes|
    ensures r.Some? ==> BuiltAt(ds, outcomes, c, r.value)
    ensures r.Some? ==> forall j :: r.value < j < |ds| ==> !BuiltAt(ds, outcomes, c, j)
    ensures r.None? ==> forall j :: 0 <= j < |ds| ==> !BuiltAt(ds, outcomes, c, j)
    decreases |ds|
  {
    if ds == [] then None
    else
      var n := |ds| - 1;
      if ds[n].command == c && outcomes[n] == Constructed then Some(n)
      else
        var r := LastBuilt(ds[..n], outcomes[..n], c);
        assert forall j :: 0 <= j < n ==> (BuiltAt(ds, outcomes, c, j) <==> BuiltAt(ds[..n], outcomes[..n], c, j));
        r
  }

  /** What registration leaves under each command: the handler of the last
      entry for it whose construction succeeded; with none, whatever was
      there before (a failed construction touches nothing). */
  lemma {:induction false} RegisterEachLookup(m: map<string, Handler>, ds: seq<Descriptor>, env: Env, outcomes: seq<Construction>, c: string)
    requires |ds| == |outcomes|
    ensures var r := RegisterEach(m, ds, env, outcomes);
            match LastBuilt(ds, outcomes, c)
            case Some(i) => c in r && r[c] == Build(ds[i], env)
            case None => (c in r <==> c in m) && (c in m ==> r[c] == m[c])
    decreases |ds|
  {
    if ds != [] {
      var n := |ds| - 1;
      RegisterEachLookup(m, ds[..n], env, outcomes[..n], c);
    }
  }

  /** One unfolding of the fold at the last manifest entry. */
  lemma RegisterEachLast(m: map<string, Handler>, ds: seq<Descriptor>, env: Env, outcomes: seq<Construction>)
    requires |ds| == |outcomes| && ds != []
    ensures RegisterEach(m, ds, env, outcomes)
         == Register(RegisterEach(m, ds[..|ds| - 1], env, outcomes[..|ds| - 1]), ds[|ds| - 1], env, outcomes[|ds| - 1])
  {
  }

  /** Removing element `k` from a sequence, seen from its last element. */
  lemma RemoveAt<T>(s: seq<T>, k: nat)
    requires k < |s|
    ensures k == |s| - 1 ==> s[..k] + s[k + 1..] == s[..k]
    ensures k < |s| - 1 ==> var t, n := s[..k] + s[k + 1..], |s| - 1;
              t[..n - 1] == s[..n][..k] + s[..n][k + 1..] && t[n - 1] == s[n]
  {
    var t, n := s[..k] + s[k + 1..], |s| - 1;
    if k < n {
      assert t[..n - 1] == s[..n][..k] + s[..n][k + 1..];
    }
  }

  /** An entry whose construction threw can be dropped from the manifest
      without changing the resulting registry: the remaining entries are
      still registered, in the same order. */
  lemma {:induction false} FailedEntryIsSkipped(m: map<string, Handler>, ds: seq<Descriptor>, env: Env, outcomes: seq<Construction>, k: nat)
    requires |ds| == |outcomes| && k < |ds| && outcomes[k] == Threw
    ensures RegisterEach(m, ds, env, outcomes)
         == RegisterEach(m, ds[..k] + ds[k + 1..], env, outcomes[..k] + outcomes[k + 1..])
    decreases |ds|
  {
    var n := |ds| - 1;
    var ds', os' := ds[..k] + ds[k + 1..], outcomes[..k] + outcomes[k + 1..];
    RemoveAt(ds, k);
    RemoveAt(outcomes, k);
    RegisterEachLast(m, ds, env, outcomes);
    if k < n {
      FailedEntryIsSkipped(m, ds[..n], env, outcomes[..n], k);
      RegisterEachLast(m, ds', env, os');
    }
  }

  /** The registry object: the global dictionary the request handler reads. */
  class Registry {
    var handlers: map<string, Handler>

    /** The dictionary starts out empty. */
    constructor ()
      ensures handlers == map[]
    {
      handlers := map[];
    }

    /** Registers one manifest entry: on a successful construction the entry
        for its command becomes the new handler, built with the token found
        under its variable name; on a throw nothing changes. */
    method RegisterHandler(d: Descriptor, env: Env, outcome: Construction)
      modifies this
      ensures outcome == Constructed ==> handlers == old(handlers)[d.command := Build(d, env)]
      ensures outcome == Threw ==> handlers == old(handlers)
    {
      match outcome
      case Constructed =>
        handlers := handlers[d.command := Build(d, env)];
      case Threw =>
    }

    /** Registers every manifest entry in order. */
    method RegisterAll(manifest: seq<Descriptor>, env: Env, outcomes: seq<Construction>)
      requires |manifest| == |outcomes|
      modifies this
      ensures handlers == RegisterEach(old(handlers), manifest, env, outcomes)
    {
      var i := 0;
      while i < |manifest|
        invariant 0 <= i <= |manifest|
        invariant handlers == RegisterEach(old(handlers), manifest[..i], env, outcomes[..i])
      {
        assert manifest[..i + 1][..i] == manifest[..i] && outcomes[..i + 1][..i] == outcomes[..i];
        RegisterHandler(manifest[i], env, outcomes[i]);
        i := i + 1;
      }
      assert manifest[..i] == manifest && outcomes[..i] == outcomes;
    }
  }

  /** Module load: an empty dictionary, then every manifest entry registered. */
  method Startup(manifest: seq<Descriptor>, env: Env, outcomes: seq<Construction>) returns (reg: Registry)
    requires |manifest| == |outcomes|
    ensures fresh(reg)
    ensures reg.handlers == RegisterEach(map[], manifest, env, outcomes)
  {
    reg := new Registry();
    reg.RegisterAll(manifest, env, outcomes);
  }
}
