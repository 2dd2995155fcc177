/** The dispatch bridge between the native scopes runtime and the Go scope:
    how native error strings become Go errors, how the outcome of a Search or
    Preview task is reported on its reply, when Activate and PerformAction
    reach the scope's optional handlers and what lands in the native error
    slot, how the scope base is handed over, and how `Run` derives the scope
    id from the configuration path.

    A scope is the set of handlers it implements. Native objects the bridge
    only passes along (queries, results, metadata, replies) are opaque
    handles; the handlers are functions of them. */
module UnityScope {
  import opened Outcomes
  import opened JsonValue
  import opened GoPath

  /** A non-null pointer to a native object. Nullable pointers are
      `Option<Handle>`. */
  datatype Handle = Handle(address: nat)

  /** `checkError`: a null error string is no error; any other string is an
      error carrying exactly that text. */
  function CheckError(errorString: Option<string>): (err: Option<Error>)
    ensures err.None? <==> errorString.None?
    ensures err.Some? ==> err.value.NativeError? && err.value.message == errorString.value
  {
    match errorString
    case None => None
    case Some(s) => Some(NativeError(s))
  }

  /** What the native side sees of a Go error: `err.Error()`, or nothing. */
  function Message(err: Option<Error>): Option<string>
  {
    match err
    case None => None
    case Some(e) => Some(e.message)
  }

  /** An error string crosses into Go and back unchanged. */
  lemma CheckErrorMessage(errorString: Option<string>)
    ensures Message(CheckError(errorString)) == errorString
  {
  }

  // ---- Search and Preview ----

  /** A call on a reply object. The handler may push results (native
      objects) and register categories; `Finished` and `ErrorSignal` end the reply. */
  datatype ReplyCall =
    | Push(item: Handle)
    | RegisterCategory(id: string)
    | Finished
    | ErrorSignal(message: string)
  {
    predicate Terminal() {
      Finished? || ErrorSignal?
    }
  }

  /** What a Search or Preview handler did in its goroutine: the calls it made on
      its reply, in order, and the error it returned. */
  datatype TaskRun = TaskRun(calls: seq<ReplyCall>, err: Option<Error>)

  /** The closing call the bridge makes once the handler has returned. */
  function Closing(err: Option<Error>): (c: ReplyCall)
    ensures c.Terminal()
    ensures c.ErrorSignal? <==> err.Some?
    ensures c.ErrorSignal? ==> c.message == err.value.message
  {
    match err
    case Some(e) => ErrorSignal(e.message)
    case None => Finished
  }

  /** The body of the goroutine the bridge spawns: the handler's own calls, then
      `Error(err)` if it failed and `Finished()` otherwise. */
  function CompleteTask(run: TaskRun): (log: seq<ReplyCall>)
    ensures |log| == |run.calls| + 1
    ensures log[..|run.calls|] == run.calls
    ensures log[|run.calls|].ErrorSignal? <==> run.err.Some?
    ensures log[|run.calls|].Finished? <==> run.err.None?
  {
    run.calls + [Closing(run.err)]
  }

  /** How many ending calls a reply saw. */
  function Terminals(log: seq<ReplyCall>): nat
  {
    if |log| == 0 then 0
    else Terminals(log[..|log| - 1]) + (if log[|log| - 1].Terminal() then 1 else 0)
  }

  lemma {:induction false} NoTerminals(log: seq<ReplyCall>)
    requires forall i :: 0 <= i < |log| ==> !log[i].Terminal()
    ensures Terminals(log) == 0
  {
    if |log| > 0 {
      NoTerminals(log[..|log| - 1]);
    }
  }

  /** The bridge adds exactly one ending call to whatever the handler made:
      there is no check that the reply is still open. */
  lemma OneMoreTerminal(run: TaskRun)
    ensures Terminals(CompleteTask(run)) == Terminals(run.calls) + 1
  {
    var log := CompleteTask(run);
    assert log[..|log| - 1] == run.calls;
  }

  /** A handler that already finished its own reply gets a second ending
      call. */
  lemma SecondClosingCall(err: Option<Error>)
    ensures Terminals(CompleteTask(TaskRun([Finished], err))) == 2
  {
    OneMoreTerminal(TaskRun([Finished], err));
    assert [Finished][..0] == [];
  }

  /** A handler that leaves its reply open gets exactly one ending call, at
      the end: an error signal iff it failed, never both. */
  lemma ExactlyOneTerminal(run: TaskRun)
    requires forall i :: 0 <= i < |run.calls| ==> !run.calls[i].Terminal()
    ensures var log := CompleteTask(run);
            Terminals(log) == 1 && log[|log| - 1].Terminal()
            && (exists i :: 0 <= i < |log| && log[i].ErrorSignal?) == run.err.Some?
            && (exists i :: 0 <= i < |log| && log[i].Finished?) == run.err.None?
  {
    NoTerminals(run.calls);
    OneMoreTerminal(run);
  }

  /** The search handler's inputs: query, search metadata and the goroutine's
      cancellation channel. */
  type SearchHandler = (Handle, Handle, nat) -> TaskRun

  /** The preview handler's inputs: result, action metadata and the goroutine's
      cancellation channel. */
  type PreviewHandler = (Handle, Handle, nat) -> TaskRun

  /** `ActivationResponse`, as far as the bridge is concerned: a status and
      the scope's own data. */
  datatype ActivationResponse = ActivationResponse(status: nat, scopeData: Value)

  /** What `Activate` or `PerformAction` returned: a `*ActivationResponse`,
      which may be nil (`None`), and an error. */
  datatype HandlerReturn = HandlerReturn(response: Option<ActivationResponse>, err: Option<Error>)

  /** `(*ActivationResponse).update`, called on a possibly nil receiver. */
  type Updater = Option<ActivationResponse> -> Option<Error>

  /** A scope: the two handlers every scope has, and the two optional
      capabilities (`Activator`, `PerformActioner`). */
  datatype Scope = Scope(
    search: SearchHandler,
    preview: PreviewHandler,
    activator: Option<(Handle, Handle) -> HandlerReturn>,
    performActioner: Option<(Handle, Handle, string, string) -> HandlerReturn>)

  /** `callScopeSearch`: what the reply receives once the spawned goroutine ends. */
  function CallScopeSearch(scope: Scope, query: Handle, metadata: Handle, cancel: nat): (log: seq<ReplyCall>)
    ensures var run := scope.search(query, metadata, cancel);
            |log| == |run.calls| + 1 && log[..|run.calls|] == run.calls
            && (log[|log| - 1].ErrorSignal? <==> run.err.Some?)
            && (log[|log| - 1].Finished? <==> run.err.None?)
  {
    CompleteTask(scope.search(query, metadata, cancel))
  }

  /** `callScopePreview`: the same protocol, on the preview reply. */
  function CallScopePreview(scope: Scope, result: Handle, metadata: Handle, cancel: nat): (log: seq<ReplyCall>)
    ensures var run := scope.preview(result, metadata, cancel);
            |log| == |run.calls| + 1 && log[..|run.calls|] == run.calls
            && (log[|log| - 1].ErrorSignal? <==> run.err.Some?)
            && (log[|log| - 1].Finished? <==> run.err.None?)
  {
    CompleteTask(scope.preview(result, metadata, cancel))
  }

  // ---- Activate and PerformAction ----

  /** What one Activate or PerformAction call does on the native side:
      whether a handler ran, the receiver `update` was called on if it was
      called at all (that receiver itself may be nil), and the message
      written into the native error slot (None: the slot is left as it
      was). */
  datatype Outcome = Outcome(handlerRan: bool, updatedWith: Option<Option<ActivationResponse>>, errorSlot: Option<string>)

  /** What happens after a handler returned: `update` is called on the
      returned response, nil or not, only when the handler succeeded, and
      the error slot receives the handler's error or, failing that, the
      update's. */
  function Respond(ret: HandlerReturn, update: Updater): (o: Outcome)
    ensures o.handlerRan
    ensures o.updatedWith.Some? <==> ret.err.None?
    ensures o.updatedWith.Some? ==> o.updatedWith.value == ret.response
    ensures o.errorSlot.Some? <==> ret.err.Some? || update(ret.response).Some?
    ensures ret.err.Some? ==> o.errorSlot == Some(ret.err.value.message)
    ensures ret.err.None? ==> o.errorSlot == Message(update(ret.response))
  {
    var err := if ret.err.Some? then ret.err else update(ret.response);
    Outcome(true, if ret.err.None? then Some(ret.response) else None, Message(err))
  }

  /** A handler that returns a nil response and no error still has `update`
      called on that nil response, and the slot holds whatever that call
      reports. */
  lemma NilResponseUpdated(update: Updater)
    ensures var o := Respond(HandlerReturn(None, None), update);
            o.updatedWith == Some(None) && o.errorSlot == Message(update(None))
  {
  }

  /** The outcome of a scope without the capability. */
  const Untouched: Outcome := Outcome(false, None, None)

  /** `callScopeActivate`. */
  function CallScopeActivate(scope: Scope, result: Handle, metadata: Handle,
                             update: Updater): (o: Outcome)
    ensures scope.activator.None? ==> o == Untouched
    ensures scope.activator.Some? ==> o == Respond(scope.activator.value(result, metadata), update)
  {
    match scope.activator
    case None => Untouched
    case Some(activate) => Respond(activate(result, metadata), update)
  }

  /** `callScopePerformAction`: the widget and action ids reach the handler
      as given. */
  function CallScopePerformAction(scope: Scope, result: Handle, metadata: Handle,
                                  widgetId: string, actionId: string,
                                  update: Updater): (o: Outcome)
    ensures scope.performActioner.None? ==> o == Untouched
    ensures scope.performActioner.Some? ==>
              o == Respond(scope.performActioner.value(result, metadata, widgetId, actionId), update)
  {
    match scope.performActioner
    case None => Untouched
    case Some(perform) => Respond(perform(result, metadata, widgetId, actionId), update)
  }

  /** The native error slot is written exactly when a handler ran and it or
      the response update failed; a response is written exactly when a
      handler ran and succeeded. */
  lemma ActivateOutcome(scope: Scope, result: Handle, metadata: Handle,
                        update: Updater)
    ensures var o := CallScopeActivate(scope, result, metadata, update);
            (o.errorSlot.Some? <==>
              scope.activator.Some? &&
              (var ret := scope.activator.value(result, metadata);
               ret.err.Some? || update(ret.response).Some?))
            && (o.updatedWith.Some? <==>
              scope.activator.Some? && scope.activator.value(result, metadata).err.None?)
            && (o.handlerRan <==> scope.activator.Some?)
  {
  }

  // ---- The scope base ----

  /** The Go wrapper around the native scope base. */
  datatype ScopeBase = ScopeBase(native: Handle)

  /** `setScopeBase`: the value handed to the scope's `SetScopeBase` — nil
      for a null pointer, otherwise a wrapper around the pointer. */
  function SetScopeBase(b: Option<Handle>): (arg: Option<ScopeBase>)
    ensures arg.None? <==> b.None?
    ensures arg.Some? ==> arg.value.native == b.value
  {
    match b
    case None => None
    case Some(h) => Some(ScopeBase(h))
  }

  // ---- Run ----

  const IniSuffix: string := ".ini"
  const ConfigNotSet: string := "Scope configuration file not set on command line"
  const ConfigNotIni: string := "Scope configuration file does not end in '.ini'"

  /** The scope id `Run` derives from the `--scope` configuration path: its
      base name without the `.ini` suffix. */
  function ScopeId(scopeConfig: string): (r: Result<string>)
    ensures scopeConfig == "" ==> r == Failure(UsageError(ConfigNotSet))
    ensures scopeConfig != "" && !HasSuffix(Base(scopeConfig), IniSuffix) ==> r == Failure(UsageError(ConfigNotIni))
    ensures r.Success? <==> scopeConfig != "" && HasSuffix(Base(scopeConfig), IniSuffix)
    ensures r.Success? ==> r.value + IniSuffix == Base(scopeConfig) && NoSlash(r.value)
  {
    if scopeConfig == "" then Failure(UsageError(ConfigNotSet))
    else
      var base := Base(scopeConfig);
      if !HasSuffix(base, IniSuffix) then Failure(UsageError(ConfigNotIni))
      else
        BaseIsElement(scopeConfig);
        var id := base[..|base| - |IniSuffix|];
        StripIni(base);
        Success(id)
  }

  /** Dropping the `.ini` suffix from a path element leaves an element. */
  lemma StripIni(base: string)
    requires HasSuffix(base, IniSuffix) && NoSlash(base)
    ensures base[..|base| - |IniSuffix|] + IniSuffix == base
    ensures NoSlash(base[..|base| - |IniSuffix|])
  {
    var id := base[..|base| - |IniSuffix|];
    forall i | 0 <= i < |id|
      ensures id[i] != '/'
    {
      assert id[i] == base[i];
    }
  }

  /** A configuration path `dir/<id>.ini` names the scope `<id>`. */
  lemma ScopeIdOfPath(dir: string, id: string, slashes: string)
    requires |dir| == 0 || dir[|dir| - 1] == '/'
    requires NoSlash(id)
    requires AllSlashes(slashes)
    ensures ScopeId(dir + id + IniSuffix + slashes) == Success(id)
  {
    var name := id + IniSuffix;
    var p := dir + name + slashes;
    assert dir + id + IniSuffix + slashes == p;
    BaseOfParts(dir, name, slashes);
    assert p[|dir|] == name[0];
    assert name[|name| - |IniSuffix|..] == IniSuffix;
    assert name[..|name| - |IniSuffix|] == id;
  }

  /** `Run`: a usage error for a bad configuration path, before the runtime
      is started; otherwise whatever error the native runtime reports when
      it stops. `runScope` is the native runtime, given the scope id, the
      runtime configuration path and the scope configuration path. */
  function Run(scopeConfig: string, runtimeConfig: string,
               runScope: (string, string, string) -> Option<string>): (err: Option<Error>)
    ensures ScopeId(scopeConfig).Failure? ==> err == Some(ScopeId(scopeConfig).error)
    ensures ScopeId(scopeConfig).Success? ==>
              err == CheckError(runScope(ScopeId(scopeConfig).value, runtimeConfig, scopeConfig))
  {
    match ScopeId(scopeConfig)
    case Failure(e) => Some(e)
    case Success(id) => CheckError(runScope(id, runtimeConfig, scopeConfig))
  }

  /** A rejected configuration path never reaches the runtime: the outcome
      is the same whatever the runtime would have done. */
  lemma RunRejectsBeforeRuntime(scopeConfig: string, runtimeConfig: string,
                                runScope: (string, string, string) -> Option<string>,
                                otherRuntime: (string, string, string) -> Option<string>)
    requires scopeConfig == "" || !HasSuffix(Base(scopeConfig), IniSuffix)
    ensures Run(scopeConfig, runtimeConfig, runScope) == Run(scopeConfig, runtimeConfig, otherRuntime)
    ensures Run(scopeConfig, runtimeConfig, runScope).Some?
    ensures Run(scopeConfig, runtimeConfig, runScope).value.UsageError?
  {
  }
}
