/**
 * Operation dispatch (`OperationRegistry` and `OperationManager`): a registry
 * from `(intent, subintent)` to handlers, filled from the `handle_*`
 * coroutines of the operation modules, and the decoration of whatever a
 * handler returns with `_metadata`.
 *
 * Importing modules is not modelled: each operation file is described by
 * its name, whether it imports, and the members `inspect.getmembers` lists.
 * Running a handler is the oracle `run`; the elapsed time is a parameter.
 */
module Dispatch {
  import opened Wrappers
  import opened OrderedDict
  import opened Values
  import opened Strings

  /** A registered handler: a loaded module's coroutine, or the built-in recognition-failure fallback. */
  datatype Handler = Loaded(moduleName: string, functionName: string) | RecognitionFailedHandler

  /** `OperationRegistry.operations`, in registration order. */
  type Registry = seq<((string, string), Handler)>

  /** `register`: store (or replace) the handler of `(intent, subintent)`. */
  function Register(reg: Registry, intent: string, subintent: string, h: Handler): Registry {
    Set(reg, (intent, subintent), h)
  }

  /** `get_handler`. */
  function GetHandler(reg: Registry, intent: string, subintent: string): Option<Handler> {
    Get(reg, (intent, subintent))
  }

  /** `list_operations`. */
  function ListOperations(reg: Registry): seq<(string, string)> {
    Keys(reg)
  }

  /** A registration is read back; re-registering overwrites; other pairs and the listing order are untouched. */
  lemma RegisterSpec(reg: Registry, intent: string, subintent: string, h: Handler)
    ensures GetHandler(Register(reg, intent, subintent, h), intent, subintent) == Some(h)
    ensures forall i, s :: (i, s) != (intent, subintent) ==>
      GetHandler(Register(reg, intent, subintent, h), i, s) == GetHandler(reg, i, s)
    ensures ListOperations(Register(reg, intent, subintent, h)) ==
      if (intent, subintent) in ListOperations(reg) then ListOperations(reg)
      else ListOperations(reg) + [(intent, subintent)]
  {
    SetSpec(reg, (intent, subintent), h);
  }

  /** The listing holds exactly the pairs that have a handler. */
  lemma ListOperationsSpec(reg: Registry, intent: string, subintent: string)
    ensures (intent, subintent) in ListOperations(reg) <==> GetHandler(reg, intent, subintent).Some?
  {
    GetSome(reg, (intent, subintent));
  }

  // ---------------------------------------------------------------------------
  // Loading the operation modules.

  /** A module attribute as `inspect.getmembers` reports it. */
  datatype Member = Member(name: string, isCoroutine: bool)

  /** A `*.py` file of the operations directory. */
  datatype OperationFile = OperationFile(fileName: string, imports: bool, members: seq<Member>)

  const HandlerPrefix: string := "handle_"

  /** `Path.stem`: the file name without its last suffix. */
  function Stem(fileName: string): string {
    match LastIndexOf(fileName, ".")
    case Some(dot) => if dot > 0 then fileName[..dot] else fileName
    case None => fileName
  }

  /** `load_operations` looks into a file: not a dunder file, and its import succeeds. */
  predicate Loads(f: OperationFile) {
    !StartsWith(f.fileName, "__") && f.imports
  }

  /** A member that `load_operations` registers. */
  predicate IsHandler(m: Member) {
    StartsWith(m.name, HandlerPrefix) && m.isCoroutine
  }

  /** The registrations one member contributes. */
  function MemberEntries(moduleName: string, m: Member): Registry {
    if IsHandler(m) then [((moduleName, m.name[|HandlerPrefix|..]), Loaded(moduleName, m.name))] else []
  }

  /** The registrations of one file, in member order. */
  function FileEntries(moduleName: string, members: seq<Member>): Registry {
    if |members| == 0 then []
    else MemberEntries(moduleName, members[0]) + FileEntries(moduleName, members[1..])
  }

  /** The registrations of all files, in directory order. */
  function Entries(files: seq<OperationFile>): Registry {
    if |files| == 0 then []
    else
      var first := if Loads(files[0]) then FileEntries(Stem(files[0].fileName), files[0].members) else [];
      first + Entries(files[1..])
  }

  /** `load_operations`, registering every entry in turn. */
  function LoadOperations(reg: Registry, files: seq<OperationFile>): Registry {
    Update(reg, Entries(files))
  }

  /** `handle_X` in file `M` is the pair `(stem of M, X)`. */
  predicate Provides(f: OperationFile, intent: string, subintent: string) {
    Loads(f) && Stem(f.fileName) == intent
    && exists j :: 0 <= j < |f.members| && IsHandler(f.members[j]) && f.members[j].name == HandlerPrefix + subintent
  }

  lemma KeysAppend(a: Registry, b: Registry)
    ensures Keys(a + b) == Keys(a) + Keys(b)
    decreases |a|
  {
    if |a| > 0 {
      assert (a + b)[1..] == a[1..] + b;
      KeysAppend(a[1..], b);
    } else {
      assert a + b == b;
    }
  }

  /** A handler name is the prefix followed by the subintent it serves. */
  lemma HandlerName(name: string, subintent: string)
    requires StartsWith(name, HandlerPrefix)
    ensures name[|HandlerPrefix|..] == subintent <==> name == HandlerPrefix + subintent
  {
    assert name == name[..|HandlerPrefix|] + name[|HandlerPrefix|..];
    if name == HandlerPrefix + subintent {
      assert name[|HandlerPrefix|..] == (HandlerPrefix + subintent)[|HandlerPrefix|..] == subintent;
    }
  }

  lemma {:induction false} FileEntriesSpec(moduleName: string, members: seq<Member>, subintent: string)
    ensures (moduleName, subintent) in Keys(FileEntries(moduleName, members)) <==>
      exists j :: 0 <= j < |members| && IsHandler(members[j]) && members[j].name == HandlerPrefix + subintent
    ensures forall i, s :: (i, s) in Keys(FileEntries(moduleName, members)) ==> i == moduleName
  {
    if |members| > 0 {
      var m := members[0];
      var first := MemberEntries(moduleName, m);
      FileEntriesSpec(moduleName, members[1..], subintent);
      KeysAppend(first, FileEntries(moduleName, members[1..]));
      if IsHandler(m) {
        HandlerName(m.name, subintent);
        assert Keys(first) == [(moduleName, m.name[|HandlerPrefix|..])];
      }
      assert forall j :: 1 <= j < |members| ==> members[j] == members[1..][j - 1];
      if exists j :: 0 <= j < |members| && IsHandler(members[j]) && members[j].name == HandlerPrefix + subintent {
        var j :| 0 <= j < |members| && IsHandler(members[j]) && members[j].name == HandlerPrefix + subintent;
        if j > 0 {
          assert members[1..][j - 1] == members[j];
        }
      }
    }
  }

  lemma {:induction false} EntriesSpec(files: seq<OperationFile>, intent: string, subintent: string)
    ensures (intent, subintent) in Keys(Entries(files)) <==>
      exists i :: 0 <= i < |files| && Provides(files[i], intent, subintent)
  {
    if |files| > 0 {
      var f := files[0];
      var first := if Loads(f) then FileEntries(Stem(f.fileName), f.members) else [];
      EntriesSpec(files[1..], intent, subintent);
      KeysAppend(first, Entries(files[1..]));
      FileEntriesSpec(Stem(f.fileName), f.members, subintent);
      assert forall i :: 1 <= i < |files| ==> files[i] == files[1..][i - 1];
      if (intent, subintent) in Keys(first) {
        assert Provides(f, intent, subintent);
      }
      if exists i :: 0 <= i < |files| && Provides(files[i], intent, subintent) {
        var i :| 0 <= i < |files| && Provides(files[i], intent, subintent);
        if i > 0 {
          assert Provides(files[1..][i - 1], intent, subintent);
        }
      }
    }
  }

  /** After loading, exactly the pairs some loadable file provides, plus those registered before, have a handler. */
  lemma LoadOperationsSpec(reg: Registry, files: seq<OperationFile>, intent: string, subintent: string)
    ensures GetHandler(LoadOperations(reg, files), intent, subintent).Some? <==>
      GetHandler(reg, intent, subintent).Some? || exists i :: 0 <= i < |files| && Provides(files[i], intent, subintent)
  {
    UpdateKeys(reg, Entries(files), (intent, subintent));
    EntriesSpec(files, intent, subintent);
    GetSome(LoadOperations(reg, files), (intent, subintent));
    GetSome(reg, (intent, subintent));
  }

  /** `OperationManager()`: load the modules, then register the built-in fallback. */
  function NewManager(files: seq<OperationFile>): Registry {
    Register(LoadOperations([], files), "error", "recognition_failed", RecognitionFailedHandler)
  }

  /** The built-in fallback overrides any loaded `handle_recognition_failed` of an `error` module; nothing else changes. */
  lemma NewManagerSpec(files: seq<OperationFile>, intent: string, subintent: string)
    ensures GetHandler(NewManager(files), "error", "recognition_failed") == Some(RecognitionFailedHandler)
    ensures (intent, subintent) != ("error", "recognition_failed") ==>
      (GetHandler(NewManager(files), intent, subintent).Some? <==>
        exists i :: 0 <= i < |files| && Provides(files[i], intent, subintent))
  {
    RegisterSpec(LoadOperations([], files), "error", "recognition_failed", RecognitionFailedHandler);
    LoadOperationsSpec([], files, intent, subintent);
  }

  // ---------------------------------------------------------------------------
  // Executing an operation.

  /** What a handler did: returned a value, or raised with a message. */
  datatype Reply = Returned(value: Value) | Raised(message: string)

  const Apology: string := "I'm sorry, I didn't understand your request. Could you please rephrase or provide more details?"
  const Suggestions: seq<Value> := [
    VStr("Try being more specific about the financial information you need"),
    VStr("Specify a time period if applicable"),
    VStr("Mention specific accounts or financial metrics")]

  /** The `_metadata` of the recognition-failure reply: `error_message or error`. */
  function FailureDetails(entities: Dict): Dict {
    var details := Or(GetOr(entities, "error_message", VStr("")), GetOr(entities, "error", VStr("unknown error")));
    [("operation", VStr("error/recognition_failed")), ("success", VBool(false)), ("error_details", details)]
  }

  /** `handle_recognition_failed`: an apology whose `_metadata` says the operation failed. */
  function RecognitionFailure(entities: Dict): Dict {
    [("message", VStr(Apology)), ("suggestions", VList(Suggestions)), ("_metadata", VDict(FailureDetails(entities)))]
  }

  /** The fallback reports failure and the details of what went wrong. */
  lemma RecognitionFailureSpec(entities: Dict)
    ensures Lookup(RecognitionFailure(entities), "message") == Some(VStr(Apology))
    ensures Lookup(RecognitionFailure(entities), "_metadata") == Some(VDict(FailureDetails(entities)))
    ensures Lookup(FailureDetails(entities), "success") == Some(VBool(false))
    ensures Lookup(FailureDetails(entities), "error_details") ==
      Some(Or(GetOr(entities, "error_message", VStr("")), GetOr(entities, "error", VStr("unknown error"))))
  {
    var d := FailureDetails(entities);
    var details := Or(GetOr(entities, "error_message", VStr("")), GetOr(entities, "error", VStr("unknown error")));
    GetDisplay3(("message", VStr(Apology)), ("suggestions", VList(Suggestions)), ("_metadata", VDict(d)), "message");
    GetDisplay3(("message", VStr(Apology)), ("suggestions", VList(Suggestions)), ("_metadata", VDict(d)), "_metadata");
    GetDisplay3(("operation", VStr("error/recognition_failed")), ("success", VBool(false)), ("error_details", details), "success");
    GetDisplay3(("operation", VStr("error/recognition_failed")), ("success", VBool(false)), ("error_details", details), "error_details");
  }

  /** `_metadata.update({...})`: operation, execution time and success, in that order. */
  function Stamp(meta: Dict, op: string, elapsed: real, success: bool): Dict {
    Set(Set(Set(meta, "operation", VStr(op)), "execution_time", VReal(elapsed)), "success", VBool(success))
  }

  /** A stamp sets its three keys and keeps every other entry. */
  lemma StampSpec(meta: Dict, op: string, elapsed: real, success: bool)
    ensures Lookup(Stamp(meta, op, elapsed, success), "operation") == Some(VStr(op))
    ensures Lookup(Stamp(meta, op, elapsed, success), "success") == Some(VBool(success))
    ensures forall k :: k != "operation" && k != "execution_time" && k != "success" ==>
      Lookup(Stamp(meta, op, elapsed, success), k) == Lookup(meta, k)
  {
    var a := Set(meta, "operation", VStr(op));
    var b := Set(a, "execution_time", VReal(elapsed));
    SetGet(meta, "operation", VStr(op));
    SetGet(a, "execution_time", VReal(elapsed));
    SetGet(b, "success", VBool(success));
  }

  /** Python's name for the type of a value, as an AttributeError reports it. */
  function TypeName(v: Value): string {
    match v
    case VNone => "NoneType"
    case VBool(_) => "bool"
    case VInt(_) => "int"
    case VReal(_) => "float"
    case VStr(_) => "str"
    case VList(_) => "list"
    case VDict(_) => "dict"
    case VOpaque(name) => name
  }

  /** The result when the handler, or decorating its result, raised. */
  function Failure(op: string, elapsed: real, message: string): Dict {
    [("message", VStr("An error occurred while processing your request: " + message)),
     ("error", VStr(message)),
     ("_metadata", VDict(Stamp([], op, elapsed, false)))]
  }

  /**
   * The decoration of a handler's reply: a dict gets its `_metadata` (created
   * when missing) stamped as a success; any other value is wrapped under
   * `result`; an exception, including the one `update` raises on a
   * `_metadata` that is not a dict, becomes a failure.
   */
  function Decorate(op: string, elapsed: real, reply: Reply): Dict {
    match reply
    case Raised(message) => Failure(op, elapsed, message)
    case Returned(VDict(d)) =>
      (match Lookup(d, "_metadata")
       case None => Set(d, "_metadata", VDict(Stamp([], op, elapsed, true)))
       case Some(VDict(meta)) => Set(d, "_metadata", VDict(Stamp(meta, op, elapsed, true)))
       case Some(other) =>
         Failure(op, elapsed, "'" + TypeName(other) + "' object has no attribute 'update'"))
    case Returned(v) => [("result", v), ("_metadata", VDict(Stamp([], op, elapsed, true)))]
  }

  /** The registry key of an intent, when both parts are strings. */
  function KeyOf(intent: Value, subintent: Value): Option<(string, string)> {
    if intent.VStr? && subintent.VStr? then Some((intent.s, subintent.s)) else None
  }

  /** The entities handed to the handler: a non-dict is replaced by `{}`. */
  function EntitiesOf(intentData: Dict): (entities: Dict)
    ensures Lookup(intentData, "entities").Some? && Lookup(intentData, "entities").value.VDict? ==>
      entities == Lookup(intentData, "entities").value.entries
  {
    match GetOr(intentData, "entities", VDict([]))
    case VDict(d) => d
    case _ => []
  }

  /**
   * The handler registered for an intent, if both parts are strings. Err is
   * the TypeError of hashing a key that holds a list or a dict.
   */
  function HandlerFor(reg: Registry, intent: Value, subintent: Value): Result<Option<Handler>> {
    if !Hashable(intent) then Err(Unhashable(intent))
    else if !Hashable(subintent) then Err(Unhashable(subintent))
    else
      match KeyOf(intent, subintent)
      case Some(key) => Ok(GetHandler(reg, key.0, key.1))
      case None => Ok(None)
  }

  /** The reply when no handler is registered. */
  function Unhandled(op: string): Dict {
    [("message", VStr("I don't know how to handle " + op + " yet.")),
     ("error", VStr("No handler for " + op)),
     ("_metadata", VDict([("operation", VStr("unknown")), ("success", VBool(false))]))]
  }

  /** What `execute_operation` returns once it has looked up the handler. */
  function Respond(handler: Option<Handler>, intent: Value, subintent: Value, op: string, entities: Dict,
                   run: (Handler, Dict) -> Reply, elapsed: real): Dict {
    match handler
    case Some(RecognitionFailedHandler) => Decorate(op, elapsed, Returned(VDict(RecognitionFailure(entities))))
    case Some(h) => Decorate(op, elapsed, run(h, entities))
    case None =>
      if intent == VStr("error") && subintent == VStr("recognition_failed") then RecognitionFailure(entities)
      else Unhandled(op)
  }

  /** `execute_operation`. Err is the exception the handler lookup raises, outside the `try`. */
  function ExecuteOperation(reg: Registry, intentData: Dict, run: (Handler, Dict) -> Reply, elapsed: real, show: Value -> string): Result<Dict> {
    var intent := GetOr(intentData, "intent", VStr("unknown"));
    var subintent := GetOr(intentData, "subintent", VStr("unknown"));
    match HandlerFor(reg, intent, subintent)
    case Err(e) => Err(e)
    case Ok(handler) =>
      Ok(Respond(handler, intent, subintent, Str(intent, show) + "/" + Str(subintent, show), EntitiesOf(intentData), run, elapsed))
  }

  /** The `_metadata` of a result, when it is a dict. */
  function MetadataOf(r: Dict): Option<Dict> {
    match Lookup(r, "_metadata")
    case Some(VDict(m)) => Some(m)
    case _ => None
  }

  /**
   * A dict reply whose `_metadata` is absent or a dict keeps all its other
   * keys; its `_metadata` keeps its other entries and now names the
   * operation and reports success, whatever the handler said.
   */
  lemma DecorateDict(op: string, elapsed: real, d: Dict)
    requires Lookup(d, "_metadata").None? || Lookup(d, "_metadata").value.VDict?
    ensures var r := Decorate(op, elapsed, Returned(VDict(d)));
      && (forall k :: k != "_metadata" ==> Lookup(r, k) == Lookup(d, k))
      && MetadataOf(r).Some?
      && Lookup(MetadataOf(r).value, "operation") == Some(VStr(op))
      && Lookup(MetadataOf(r).value, "success") == Some(VBool(true))
      && (Lookup(d, "_metadata").Some? ==> forall k :: k != "operation" && k != "execution_time" && k != "success" ==>
            Lookup(MetadataOf(r).value, k) == Lookup(Lookup(d, "_metadata").value.entries, k))
  {
    var base := match Lookup(d, "_metadata") case Some(VDict(m)) => m case _ => [];
    var stamped := Stamp(base, op, elapsed, true);
    SetSpec(d, "_metadata", VDict(stamped));
    StampSpec(base, op, elapsed, true);
  }

  /** Any other value is wrapped under `result` with a success stamp. */
  lemma DecorateValue(op: string, elapsed: real, v: Value)
    requires !v.VDict?
    ensures var r := Decorate(op, elapsed, Returned(v));
      && Lookup(r, "result") == Some(v)
      && MetadataOf(r).Some?
      && Lookup(MetadataOf(r).value, "operation") == Some(VStr(op))
      && Lookup(MetadataOf(r).value, "success") == Some(VBool(true))
  {
    var meta := Stamp([], op, elapsed, true);
    GetDisplay2(("result", v), ("_metadata", VDict(meta)), "result");
    GetDisplay2(("result", v), ("_metadata", VDict(meta)), "_metadata");
    StampSpec([], op, elapsed, true);
  }

  /** An exception becomes a failure carrying its message. */
  lemma DecorateRaised(op: string, elapsed: real, message: string)
    ensures var r := Decorate(op, elapsed, Raised(message));
      && Lookup(r, "error") == Some(VStr(message))
      && MetadataOf(r).Some?
      && Lookup(MetadataOf(r).value, "operation") == Some(VStr(op))
      && Lookup(MetadataOf(r).value, "success") == Some(VBool(false))
  {
    var meta := Stamp([], op, elapsed, false);
    var m := VStr("An error occurred while processing your request: " + message);
    GetDisplay3(("message", m), ("error", VStr(message)), ("_metadata", VDict(meta)), "error");
    GetDisplay3(("message", m), ("error", VStr(message)), ("_metadata", VDict(meta)), "_metadata");
    StampSpec([], op, elapsed, false);
  }

  /** With string intent and subintent, the handler is looked up under that pair and the operation is named `intent/subintent`. */
  lemma ExecuteNamed(reg: Registry, intentData: Dict, run: (Handler, Dict) -> Reply, elapsed: real, show: Value -> string,
                     intent: string, subintent: string, op: string)
    requires Lookup(intentData, "intent") == Some(VStr(intent)) && Lookup(intentData, "subintent") == Some(VStr(subintent))
    requires op == intent + "/" + subintent
    ensures ExecuteOperation(reg, intentData, run, elapsed, show) ==
      Ok(Respond(GetHandler(reg, intent, subintent), VStr(intent), VStr(subintent), op, EntitiesOf(intentData), run, elapsed))
  {
  }

  /** A loaded handler runs on the entities (or `{}`) and its reply is decorated under `intent/subintent`. */
  lemma ExecuteFound(reg: Registry, intentData: Dict, run: (Handler, Dict) -> Reply, elapsed: real, show: Value -> string,
                     intent: string, subintent: string)
    requires Lookup(intentData, "intent") == Some(VStr(intent)) && Lookup(intentData, "subintent") == Some(VStr(subintent))
    requires GetHandler(reg, intent, subintent).Some? && GetHandler(reg, intent, subintent).value.Loaded?
    ensures ExecuteOperation(reg, intentData, run, elapsed, show) ==
      Ok(Decorate(intent + "/" + subintent, elapsed, run(GetHandler(reg, intent, subintent).value, EntitiesOf(intentData))))
    ensures Lookup(intentData, "entities").None? || !Lookup(intentData, "entities").value.VDict? ==> EntitiesOf(intentData) == []
  {
    ExecuteNamed(reg, intentData, run, elapsed, show, intent, subintent, intent + "/" + subintent);
  }

  /** A pair nobody registered yields the "No handler" error under operation `unknown`. */
  lemma ExecuteUnregistered(reg: Registry, intentData: Dict, run: (Handler, Dict) -> Reply, elapsed: real, show: Value -> string,
                            intent: string, subintent: string)
    requires Lookup(intentData, "intent") == Some(VStr(intent)) && Lookup(intentData, "subintent") == Some(VStr(subintent))
    requires GetHandler(reg, intent, subintent).None? && (intent, subintent) != ("error", "recognition_failed")
    ensures var r := ExecuteOperation(reg, intentData, run, elapsed, show);
      && r.Ok?
      && Lookup(r.value, "error") == Some(VStr("No handler for " + intent + "/" + subintent))
      && MetadataOf(r.value) == Some([("operation", VStr("unknown")), ("success", VBool(false))])
  {
    var op := intent + "/" + subintent;
    ExecuteNamed(reg, intentData, run, elapsed, show, intent, subintent, intent + "/" + subintent);
    var meta := VDict([("operation", VStr("unknown")), ("success", VBool(false))]);
    var m := VStr("I don't know how to handle " + op + " yet.");
    GetDisplay3(("message", m), ("error", VStr("No handler for " + op)), ("_metadata", meta), "error");
    GetDisplay3(("message", m), ("error", VStr("No handler for " + op)), ("_metadata", meta), "_metadata");
    assert "No handler for " + op == "No handler for " + intent + "/" + subintent;
  }

  /** Decorating the fallback's reply flips its `success` to True and keeps its details. */
  lemma DecorateFailure(op: string, elapsed: real, entities: Dict)
    ensures var r := Decorate(op, elapsed, Returned(VDict(RecognitionFailure(entities))));
      && MetadataOf(r).Some?
      && Lookup(MetadataOf(r).value, "success") == Some(VBool(true))
      && Lookup(MetadataOf(r).value, "operation") == Some(VStr(op))
      && Lookup(MetadataOf(r).value, "error_details") == Lookup(FailureDetails(entities), "error_details")
  {
    RecognitionFailureSpec(entities);
    DecorateDict(op, elapsed, RecognitionFailure(entities));
  }

  /**
   * In a manager built by `OperationManager()`, a recognition failure always
   * reaches the built-in handler: the fallback branch of `execute_operation`
   * is never taken, and the handler's reply is decorated.
   */
  lemma RecognitionFailureReachesHandler(files: seq<OperationFile>, intentData: Dict, run: (Handler, Dict) -> Reply,
                                         elapsed: real, show: Value -> string)
    requires Lookup(intentData, "intent") == Some(VStr("error"))
    requires Lookup(intentData, "subintent") == Some(VStr("recognition_failed"))
    ensures ExecuteOperation(NewManager(files), intentData, run, elapsed, show) ==
      Ok(Decorate("error" + "/" + "recognition_failed", elapsed, Returned(VDict(RecognitionFailure(EntitiesOf(intentData))))))
  {
    var reg := NewManager(files);
    var h := GetHandler(reg, "error", "recognition_failed");
    assert h == Some(RecognitionFailedHandler) by {
      RegisterSpec(LoadOperations([], files), "error", "recognition_failed", RecognitionFailedHandler);
    }
    ExecuteNamed(reg, intentData, run, elapsed, show, "error", "recognition_failed", "error" + "/" + "recognition_failed");
  }

  /**
   * So the reply to a recognition failure has its `success: False`
   * overwritten with `True`, while keeping its `error_details`.
   */
  lemma RecognitionFailureReportsSuccess(files: seq<OperationFile>, intentData: Dict, run: (Handler, Dict) -> Reply,
                                         elapsed: real, show: Value -> string)
    requires Lookup(intentData, "intent") == Some(VStr("error"))
    requires Lookup(intentData, "subintent") == Some(VStr("recognition_failed"))
    ensures var r := ExecuteOperation(NewManager(files), intentData, run, elapsed, show);
      && r.Ok?
      && MetadataOf(r.value).Some?
      && Lookup(MetadataOf(r.value).value, "success") == Some(VBool(true))
      && Lookup(MetadataOf(r.value).value, "operation") == Some(VStr("error" + "/" + "recognition_failed"))
      && Lookup(MetadataOf(r.value).value, "error_details") == Lookup(FailureDetails(EntitiesOf(intentData)), "error_details")
  {
    RecognitionFailureReachesHandler(files, intentData, run, elapsed, show);
    DecorateFailure("error" + "/" + "recognition_failed", elapsed, EntitiesOf(intentData));
  }

  /**
   * An intent or subintent that is a list or a dict makes the handler lookup
   * raise before any handler runs, intent first.
   */
  lemma ExecuteUnhashable(reg: Registry, intentData: Dict, run: (Handler, Dict) -> Reply, elapsed: real, show: Value -> string,
                          intent: Value, subintent: Value)
    requires Lookup(intentData, "intent") == Some(intent) && Lookup(intentData, "subintent") == Some(subintent)
    ensures !Hashable(intent) ==> ExecuteOperation(reg, intentData, run, elapsed, show) == Err(Unhashable(intent))
    ensures Hashable(intent) && !Hashable(subintent) ==>
      ExecuteOperation(reg, intentData, run, elapsed, show) == Err(Unhashable(subintent))
    ensures Hashable(intent) && Hashable(subintent) ==> ExecuteOperation(reg, intentData, run, elapsed, show).Ok?
  {
  }
}
