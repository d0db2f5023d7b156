/** The per-host decision logic of the Magallanes `lock` task: which action
    the task parameters request, how a host-list entry names a host, how the
    remote marker `.mage_lock` is classified, and what one host's lock step
    does with the marker and the action.

    Everything the task asks of the outside world (remote and local shell
    commands, the codec, the operator's typed answers and the clock) is an
    input: a `World`. */
module Lock {
  import opened Php

  // ---------------------------------------------------------------------
  // Errors the task raises
  // ---------------------------------------------------------------------

  /** `SkipException` and `ErrorWithMessageException`, each with its message. */
  datatype TaskError = Skip(message: string) | ErrorWithMessage(message: string)

  datatype Result<T> = Ok(value: T) | Err(error: TaskError)

  const CorruptedMessage: string := "Remote server lock corrupted"

  // ---------------------------------------------------------------------
  // Action resolution and the task's display name
  // ---------------------------------------------------------------------

  /** The two class constants: LOCK is `true`, UNLOCK is `false`. */
  const LOCK: Value := Bool(true)
  const UNLOCK: Value := Bool(false)

  /** What one host's step does, as decided by the strict comparisons
      `=== self::LOCK` and `!== self::UNLOCK`: any value other than the
      two booleans only probes. */
  datatype Action = Probe | DoLock | DoUnlock

  function ActionOf(a: Value): (act: Action)
    ensures !a.Bool? ==> act == Probe
    ensures a.Bool? ==> act != Probe && (act == DoLock <==> a.b)
  {
    if a == LOCK then DoLock else if a == UNLOCK then DoUnlock else Probe
  }

  /** `getParameter(name, null)`: a parameter that is not given reads as null. */
  function Parameter(params: map<string, Value>, name: string): Value
  {
    if name in params then params[name] else Null
  }

  /** The raw action value: `unlock` truthy forces UNLOCK, otherwise the
      value of `lock` is used as it is. */
  function ResolveAction(params: map<string, Value>): (a: Value)
    ensures Truthy(Parameter(params, "unlock")) ==> a == UNLOCK
    ensures !Truthy(Parameter(params, "unlock")) ==> a == Parameter(params, "lock")
  {
    if Truthy(Parameter(params, "unlock")) then UNLOCK else Parameter(params, "lock")
  }

  /** Which step the resolved action performs, in terms of the parameters. */
  lemma ResolvedAction(params: map<string, Value>)
    ensures ActionOf(ResolveAction(params)) == DoUnlock
            <==> Truthy(Parameter(params, "unlock")) || Parameter(params, "lock") == Bool(false)
    ensures ActionOf(ResolveAction(params)) == DoLock
            <==> !Truthy(Parameter(params, "unlock")) && Parameter(params, "lock") == Bool(true)
    ensures ActionOf(ResolveAction(params)) == Probe
            <==> !Truthy(Parameter(params, "unlock"))
                 && Parameter(params, "lock") != Bool(true) && Parameter(params, "lock") != Bool(false)
  {
  }

  const BaseName: string := "Checking lock status"

  /** The task's display name for a resolved action. */
  function TaskName(a: Value): (name: string)
    ensures name == BaseName <==> a.Null?
    ensures name == BaseName + " and performing lock" <==> !a.Null? && Truthy(a)
    ensures name == BaseName + " and performing unlock" <==> !a.Null? && !Truthy(a)
  {
    var name := BaseName;
    if !a.Null? then name + " and performing " + (if Truthy(a) then "lock" else "unlock") else name
  }

  /** `lock: false` is the same action as `unlock: true`, under the same name. */
  lemma LockFalseIsUnlock(params: map<string, Value>)
    requires !Truthy(Parameter(params, "unlock"))
    requires Parameter(params, "lock") == Bool(false)
    ensures ResolveAction(params) == ResolveAction(map["unlock" := Bool(true)])
    ensures TaskName(ResolveAction(params)) == BaseName + " and performing unlock"
  {
  }

  /** The name and the behaviour can disagree: a non-null `lock` that is not
      a boolean is announced as a lock when truthy (1, "yes") and as an
      unlock when falsy (0, "", "0", the empty array), but either way the
      step only probes. */
  lemma NameCanAnnounceActionWhileProbing(params: map<string, Value>)
    requires !Truthy(Parameter(params, "unlock"))
    requires !Parameter(params, "lock").Bool? && !Parameter(params, "lock").Null?
    ensures ActionOf(ResolveAction(params)) == Probe
    ensures Truthy(Parameter(params, "lock"))
            ==> TaskName(ResolveAction(params)) == BaseName + " and performing lock"
    ensures !Truthy(Parameter(params, "lock"))
            ==> TaskName(ResolveAction(params)) == BaseName + " and performing unlock"
  {
  }

  // ---------------------------------------------------------------------
  // Host normalisation
  // ---------------------------------------------------------------------

  /** The host a step runs against, with its host-specific configuration
      (null for a bare host). */
  datatype Target = Target(host: Value, config: Value)

  /** One entry of the configured host list, with the key `foreach` gives it. */
  datatype HostEntry = HostEntry(key: Key, entry: Value)

  /** An array-valued entry is `host => config`; anything else is a bare host. */
  function Normalise(h: HostEntry): (t: Target)
    ensures t.config.Arr? <==> h.entry.Arr?
    ensures h.entry.Arr? ==> t.host == KeyValue(h.key) && t.config == h.entry
    ensures !h.entry.Arr? ==> t.host == h.entry && t.config.Null?
  {
    if h.entry.Arr? then Target(KeyValue(h.key), h.entry) else Target(h.entry, Null)
  }

  /** The key of a bare host (its list position) plays no part. */
  lemma BareHostIgnoresKey(k1: Key, k2: Key, entry: Value)
    requires !entry.Arr?
    ensures Normalise(HostEntry(k1, entry)) == Normalise(HostEntry(k2, entry))
  {
  }

  // ---------------------------------------------------------------------
  // The outside world
  // ---------------------------------------------------------------------

  /** What a shell command reports: its success flag and captured output. */
  datatype Reply = Reply(ok: bool, output: string)

  /** The three lines the operator types when a lock is taken. */
  datatype Answers = Answers(name: string, email: string, reason: string)

  /** The record written to the marker, with its keys in this order. */
  datatype LockData = LockData(name: string, email: string, reason: string, date: string)

  /** The task's collaborators. `decode` stands for
      `json_decode(base64_decode(s), true)` (null on failure), `encode` for
      `base64_encode(json_encode(d))`, `now` for `date('Y-m-d H:i:s')`. */
  datatype World = World(
    remote: (Target, string) -> Reply,
    local: string -> Reply,
    decode: string -> Value,
    encode: LockData -> string,
    typed: Answers,
    now: string)

  const ReadCommand: string := "[ -f .mage_lock ] && cat .mage_lock"
  const RemoveCommand: string := "rm -f .mage_lock"
  const GitNameCommand: string := "git config --get user.name"
  const GitEmailCommand: string := "git config --get user.email"

  /** The marker write: the encoded record between double quotes,
      redirected into the marker file. */
  function WriteCommand(token: string): (c: string)
    ensures |c| == |token| + 20
    ensures c[..6] == "echo \"" && c[6..6 + |token|] == token
    ensures c[6 + |token|..] == "\" > .mage_lock"
  {
    "echo \"" + token + "\" > .mage_lock"
  }

  // ---------------------------------------------------------------------
  // Marker classification (isLocked)
  // ---------------------------------------------------------------------

  /** What `isLocked` returns: `false`, or the decoded array. */
  datatype Marker = Absent | Present(record: map<string, Value>)

  /** Classifies the output of the marker read. Empty output is "no marker"
      and is never decoded; output that decodes to an array is that record;
      anything else is a corrupted marker. */
  function Classify(output: string, decode: string -> Value): (r: Result<Marker>)
    ensures r == Ok(Absent) <==> EmptyString(output)
    ensures r.Ok? && r.value.Present? <==> !EmptyString(output) && decode(output).Arr?
    ensures r.Ok? && r.value.Present? ==> Arr(r.value.record) == decode(output)
    ensures r.Err? <==> !EmptyString(output) && !decode(output).Arr?
    ensures r.Err? ==> r.error == Skip(CorruptedMessage)
  {
    if EmptyString(output) then Ok(Absent)
    else
      var message := decode(output);
      if message.Arr? then Ok(Present(message.entries)) else Err(Skip(CorruptedMessage))
  }

  /** `$locked` used as a condition: only a non-empty record counts. */
  predicate Holds(m: Marker)
    ensures Holds(m) <==> m.Present? && Truthy(Arr(m.record))
  {
    m.Present? && |m.record| > 0
  }

  // ---------------------------------------------------------------------
  // The refusal message
  // ---------------------------------------------------------------------

  const RefusalPrefix: string := "Remote server locked"

  function ByClause(r: map<string, Value>): string
  {
    if IsSet(r, "name") && IsSet(r, "email")
    then " by " + ToStr(r["name"]) + "/" + ToStr(r["email"])
    else ""
  }

  function ReasonClause(r: map<string, Value>): string
  {
    if IsSet(r, "reason") then ", reason \"" + ToStr(r["reason"]) + "\"" else ""
  }

  function DateClause(r: map<string, Value>): string
  {
    if IsSet(r, "date") then ", on " + ToStr(r["date"]) else ""
  }

  /** The message of the refusal: the prefix, then the claimant, the reason
      and the date, each only when the record holds it. */
  function RefusalMessage(r: map<string, Value>): (msg: string)
    ensures |RefusalPrefix| <= |msg| && msg[..|RefusalPrefix|] == RefusalPrefix
  {
    RefusalPrefix + ByClause(r) + ReasonClause(r) + DateClause(r)
  }

  /** The bare prefix is the whole message exactly when the record holds no
      claimant pair, no reason and no date. */
  lemma BareRefusal(r: map<string, Value>)
    ensures RefusalMessage(r) == RefusalPrefix
            <==> !(IsSet(r, "name") && IsSet(r, "email")) && !IsSet(r, "reason") && !IsSet(r, "date")
  {
  }

  /** A record of the shape a lock step writes: its four fields as strings
      under their keys. */
  function AsRecord(d: LockData): (r: map<string, Value>)
    ensures r.Keys == {"name", "email", "reason", "date"}
  {
    map["name" := Str(d.name), "email" := Str(d.email), "reason" := Str(d.reason), "date" := Str(d.date)]
  }

  /** A record of the shape a lock step writes is refused with every one of
      its fields. */
  lemma RefusalOfWrittenRecord(d: LockData)
    ensures RefusalMessage(AsRecord(d))
            == "Remote server locked by " + d.name + "/" + d.email
               + ", reason \"" + d.reason + "\", on " + d.date
  {
    var r := AsRecord(d);
    assert ByClause(r) == " by " + d.name + "/" + d.email;
    assert ReasonClause(r) == ", reason \"" + d.reason + "\"";
    assert DateClause(r) == ", on " + d.date;
  }

  // ---------------------------------------------------------------------
  // The lock record
  // ---------------------------------------------------------------------

  /** The typed value, or the git default when the typed one is empty and
      the default is not. */
  function Prefer(typed: string, default: string): (v: string)
    ensures v == typed || v == default
    ensures !EmptyString(typed) ==> v == typed
    ensures EmptyString(default) ==> v == typed
    ensures EmptyString(v) <==> EmptyString(typed) && EmptyString(default)
  {
    if EmptyString(typed) && !EmptyString(default) then default else typed
  }

  /** The record a lock step writes; it always has all four fields. */
  function NewLockData(w: World): (d: LockData)
    ensures d.name == Prefer(w.typed.name, w.local(GitNameCommand).output)
    ensures d.email == Prefer(w.typed.email, w.local(GitEmailCommand).output)
    ensures d.reason == w.typed.reason && d.date == w.now
  {
    LockData(
      Prefer(w.typed.name, w.local(GitNameCommand).output),
      Prefer(w.typed.email, w.local(GitEmailCommand).output),
      w.typed.reason,
      w.now)
  }

  // ---------------------------------------------------------------------
  // One host's step (runLockTask)
  // ---------------------------------------------------------------------

  /** The outcome of one host's step: its boolean or error, and the remote
      commands it issued, in order. */
  datatype Step = Step(result: Result<bool>, commands: seq<string>)

  /** One host's step: read and classify the marker, then refuse, write a
      new record, remove the marker, or pass. */
  function LockTask(a: Value, t: Target, w: World): (s: Step)
    ensures 0 < |s.commands| && s.commands[0] == ReadCommand
    ensures s.result.Err? ==> s.commands == [ReadCommand]
    ensures s.result == Ok(false) ==> ActionOf(a) != Probe
  {
    match Classify(w.remote(t, ReadCommand).output, w.decode)
    case Err(e) => Step(Err(e), [ReadCommand])
    case Ok(m) =>
      if Holds(m) && a != UNLOCK then
        Step(Err(ErrorWithMessage(RefusalMessage(m.record))), [ReadCommand])
      else if a == LOCK then
        Step(Ok(false), [ReadCommand, WriteCommand(w.encode(NewLockData(w)))])
      else if a == UNLOCK then
        Step(Ok(false), [ReadCommand, RemoveCommand])
      else
        Step(Ok(true), [ReadCommand])
  }

  /** The refusal message as `Lock::runLockTask` builds it, one clause at
      a time. */
  method BuildRefusal(record: map<string, Value>) returns (message: string)
    ensures message == RefusalMessage(record)
  {
    message := RefusalPrefix;
    if IsSet(record, "name") && IsSet(record, "email") {
      var claimant := " by " + ToStr(record["name"]) + "/" + ToStr(record["email"]);
      assert claimant == ByClause(record);
      message := message + claimant;
    }
    ghost var soFar := message;
    assert soFar == RefusalPrefix + ByClause(record);
    if IsSet(record, "reason") {
      var reason := ", reason \"" + ToStr(record["reason"]) + "\"";
      assert reason == ReasonClause(record);
      message := message + reason;
    }
    assert message == soFar + ReasonClause(record);
    soFar := message;
    if IsSet(record, "date") {
      var date := ", on " + ToStr(record["date"]);
      assert date == DateClause(record);
      message := message + date;
    }
    assert message == soFar + DateClause(record);
  }

  /** One host's step as `Lock::runLockTask` writes it: the refusal message
      and the lock record are built step by step. */
  method RunLockTask(a: Value, t: Target, w: World) returns (step: Step)
    ensures step == LockTask(a, t, w)
  {
    var commands := [ReadCommand];
    var output := w.remote(t, ReadCommand).output;
    var locked := Classify(output, w.decode);
    if locked.Err? {
      return Step(Err(locked.error), commands);
    }

    if Holds(locked.value) && a != UNLOCK {
      var message := BuildRefusal(locked.value.record);
      return Step(Err(ErrorWithMessage(message)), commands);
    }

    if a == LOCK {
      var userName := w.local(GitNameCommand).output;
      var userEmail := w.local(GitEmailCommand).output;
      var name := w.typed.name;
      if EmptyString(name) && !EmptyString(userName) {
        name := userName;
      }
      var email := w.typed.email;
      if EmptyString(email) && !EmptyString(userEmail) {
        email := userEmail;
      }
      var lockData := LockData(name, email, w.typed.reason, w.now);
      commands := commands + [WriteCommand(w.encode(lockData))];
      return Step(Ok(false), commands);
    }

    if a == UNLOCK {
      commands := commands + [RemoveCommand];
      return Step(Ok(false), commands);
    }

    return Step(Ok(true), commands);
  }

  // ---------------------------------------------------------------------
  // Properties of one host's step
  // ---------------------------------------------------------------------

  /** Every step starts with exactly one marker read, and issues at most one
      more command. */
  lemma StepCommands(a: Value, t: Target, w: World)
    ensures var s := LockTask(a, t, w);
            1 <= |s.commands| <= 2 && s.commands[0] == ReadCommand
            && (|s.commands| == 2 <==> s.result == Ok(false))
  {
  }

  /** A corrupted marker raises the skip error whatever the action, unlock
      included, and nothing is written or removed. */
  lemma CorruptedForEveryAction(a: Value, t: Target, w: World)
    requires var out := w.remote(t, ReadCommand).output;
             !EmptyString(out) && !w.decode(out).Arr?
    ensures LockTask(a, t, w) == Step(Err(Skip(CorruptedMessage)), [ReadCommand])
  {
  }

  /** A non-empty record refuses every action but UNLOCK, with the record's
      message, and nothing is written or removed. */
  lemma LockedRefuses(a: Value, t: Target, w: World, r: map<string, Value>)
    requires var out := w.remote(t, ReadCommand).output;
             !EmptyString(out) && w.decode(out) == Arr(r)
    requires |r| > 0 && a != UNLOCK
    ensures LockTask(a, t, w) == Step(Err(ErrorWithMessage(RefusalMessage(r))), [ReadCommand])
  {
  }

  /** A marker that decodes to an empty array does not count as a lock. */
  lemma EmptyRecordIsNotLocked(a: Value, t: Target, w: World)
    requires var out := w.remote(t, ReadCommand).output;
             !EmptyString(out) && w.decode(out) == Arr(map[])
    ensures LockTask(a, t, w).result.Ok?
  {
  }

  /** The step raises an error exactly when the marker is corrupted, or it
      holds a non-empty record and the action is not UNLOCK. */
  lemma StepErrors(a: Value, t: Target, w: World)
    ensures var c := Classify(w.remote(t, ReadCommand).output, w.decode);
            LockTask(a, t, w).result.Err? <==> c.Err? || (Holds(c.value) && a != UNLOCK)
  {
  }

  /** Locking a host that is not locked writes the new record and returns
      false, whatever the write reports. */
  lemma LockWhenFree(t: Target, w: World)
    requires Classify(w.remote(t, ReadCommand).output, w.decode).Ok?
    requires !Holds(Classify(w.remote(t, ReadCommand).output, w.decode).value)
    ensures LockTask(LOCK, t, w)
            == Step(Ok(false), [ReadCommand, WriteCommand(w.encode(NewLockData(w)))])
  {
  }

  /** Unlocking a host whose marker is readable removes it and returns
      false, whether or not a record is present. */
  lemma UnlockWhenReadable(t: Target, w: World)
    requires Classify(w.remote(t, ReadCommand).output, w.decode).Ok?
    ensures LockTask(UNLOCK, t, w) == Step(Ok(false), [ReadCommand, RemoveCommand])
  {
  }

  /** A step returns true exactly when it only probes and finds no lock. */
  lemma StepPasses(a: Value, t: Target, w: World)
    ensures var c := Classify(w.remote(t, ReadCommand).output, w.decode);
            LockTask(a, t, w).result == Ok(true)
            <==> ActionOf(a) == Probe && c.Ok? && !Holds(c.value)
  {
  }

  /** Only the marker read is consulted: what the remote side reports for
      any other command (the write, the removal) changes nothing. */
  lemma StepIgnoresOtherReplies(a: Value, t: Target, w: World, remote: (Target, string) -> Reply)
    requires remote(t, ReadCommand) == w.remote(t, ReadCommand)
    ensures LockTask(a, t, w.(remote := remote)) == LockTask(a, t, w)
  {
  }
}
