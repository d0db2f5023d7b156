# Magallanes deployment lock, modelled in Dafny

A model of the `lock` task of the Magallanes deployment tool (class `Task\Lock`).
The task keeps an advisory lock marker, `.mage_lock`, in the deployment
directory of every host of an environment. On each run it does three things:

- It resolves the requested action from the `lock` and `unlock` task
  parameters. The result is PHP `true` (LOCK), PHP `false` (UNLOCK), or any
  other value, which only probes.
- It walks the configured hosts, combining the per-host results with a
  short-circuit `&&`.
- On each host it runs one step. The step reads and classifies the marker.
  A corrupted marker raises the skip error, whatever the action. Otherwise
  the step does one of four things: refuses with a message built from
  whichever of the name/email pair, the reason and the date the record
  holds (the bare "Remote server locked" when it holds none of them),
  writes a new lock record, removes the marker, or passes.

Files:

- `php.dfy` (module `Php`): the PHP values the task handles (parameters,
  host entries, decoded markers), PHP truthiness, `empty()` on strings,
  `isset` on arrays and conversion to string.
- `lock.dfy` (module `Lock`): action resolution and the task name, host
  normalisation, marker classification (`isLocked`), the refusal message, the
  new lock record, and one host's step. The step is a specification function
  `LockTask` plus the method `RunLockTask`, which builds the record step by
  step and is proved equal to `LockTask`. It uses `BuildRefusal`, which
  appends the message clauses one at a time.
- `run.dfy` (module `LockRun`): the host loop. It is a method `Run` with a
  loop invariant, proved equal to the left fold `Fold`. The lemmas say exactly
  which hosts are stepped and what the run returns.

The outside world is one input value, `Lock.World`. It holds:

- the remote command channel, a function from host and command to success
  flag and captured output;
- the local command channel, used for the git identity defaults;
- the decoder, standing for `json_decode(base64_decode(s), true)`;
- the encoder, standing for `base64_encode(json_encode(d))`;
- the operator's three typed answers;
- the clock reading.

Each step and each run reports the remote commands it issued, so "no write
is issued" is stated directly.

Behaviours of `Lock.php` that are easy to miss:

- `lock: false` means UNLOCK, not probe (`false === self::UNLOCK`).
- A `lock` value that is neither null nor a boolean only probes, yet the
  task name announces it: `lock: 1` is named "performing lock", and
  `lock: 0`, `""`, `"0"` or an empty array is named "performing unlock"
  (`Lock.NameCanAnnounceActionWhileProbing`).
- A corrupted marker raises the skip error for every action, unlock included,
  because classification comes first. Unlock does not repair it.
- On the host they reach, lock and unlock return `false` or raise. Either
  way the `&&` fold never steps a second host: lock and unlock only ever
  reach the first configured host (`LockRun.LockAndUnlockReachOnlyFirstHost`).
- The written record always has all four keys, `name`, `email`, `reason` and
  `date`, even when they are empty.
- An empty host list makes the run return `true` for every action.

## Model

| member | source | states |
|---|---|---|
| `Php.Truthy` | Lock.php:62-65 | PHP's boolean conversion, as used for `unlock` (line 62), the name (line 65) and `$locked` (line 105): a value is falsy exactly when it is null, false, 0, "", "0" or the empty array |
| `Php.EmptyString` | Lock.php:170 | `empty()` on a string, as at lines 127, 132 and 170: true exactly for "" and "0" |
| `Php.IsSet` | Lock.php:107-113 | `isset` on a record field: only a present key counts; a present key counts iff its value is not null, so an empty string is set |
| `Php.ToStr` | Lock.php:108-114 | PHP's string conversion as the refusal message applies it: a string is itself; the result is empty exactly for null, false and "" |
| `Lock.ResolveAction` | Lock.php:62 | a truthy `unlock` forces UNLOCK (`false`) whatever `lock` is; otherwise the raw `lock` value is used, null when absent (the same expression is repeated at Lock.php:76) |
| `Lock.ResolvedAction` | Lock.php:50-62 | under the strict comparisons of the step, the resolved action is UNLOCK iff `unlock` is truthy or `lock` is `false`, LOCK iff `unlock` is falsy and `lock` is `true`, and a probe in every other case |
| `Lock.ActionOf` | Lock.php:105-150 | the strict comparisons `=== self::LOCK` and `!== self::UNLOCK` (lines 105, 119, 150): a non-boolean action only probes; `true` locks and `false` unlocks |
| `Lock.TaskName` | Lock.php:60-68 | the name is exactly "Checking lock status" iff the action is null, that text plus " and performing lock" iff it is non-null and truthy, plus " and performing unlock" iff non-null and falsy |
| `Lock.LockFalseIsUnlock` | Lock.php:62-65 | `lock: false` with a falsy `unlock` resolves to the same value as `unlock: true`, and is named as an unlock |
| `Lock.NameCanAnnounceActionWhileProbing` | Lock.php:62-65 | with a falsy `unlock`, every non-null, non-boolean `lock` only probes, yet is named "performing lock" when truthy and "performing unlock" when falsy |
| `Lock.Normalise` | Lock.php:82-86 | an array entry uses its key as the host and itself as the host config; any other entry is the host, with a null config |
| `Lock.BareHostIgnoresKey` | Lock.php:81-86 | the key of a bare host entry has no effect on the host stepped |
| `Lock.Classify` | Lock.php:167-179 | not locked iff the read output is empty ("" or "0"); the decoded array iff the output is non-empty and decodes to an array; the skip error "Remote server lock corrupted" iff non-empty and not an array |
| `Lock.Holds` | Lock.php:105 | `$locked` as a condition: true iff `isLocked` returned an array that is truthy, that is, non-empty |
| `Lock.WriteCommand` | Lock.php:139 | the write command is `echo "`, then the encoded record unchanged, then `" > .mage_lock` |
| `Lock.RefusalMessage` | Lock.php:106-116 | the refusal message always starts with "Remote server locked" |
| `Lock.BareRefusal` | Lock.php:106-116 | the message is the bare prefix iff the record holds neither the name/email pair, nor a reason, nor a date |
| `Lock.RefusalOfWrittenRecord` | Lock.php:106-116 | a record of the shape a lock step writes is refused with "by name/email", the quoted reason and ", on date", in that order |
| `Lock.AsRecord` | Lock.php:120-137 | a written record always has exactly the keys name, email, reason and date |
| `Lock.Prefer` | Lock.php:126-134 | the typed value is kept unless it is empty and the git default is not: a non-empty typed value, or an empty git default, keeps the typed value; the result is one of the two and is empty iff both are |
| `Lock.NewLockData` | Lock.php:120-137 | name and email are the typed answers with the git defaults as fallback; reason is the typed reason; date is the clock reading |
| `Lock.BuildRefusal` | Lock.php:106-116 | the message built one clause at a time, as the source appends them, equals `RefusalMessage` |
| `Lock.LockTask` | Lock.php:101-161 | one host's step: the marker read is always the first command issued; a raised error issues nothing after it; a step that returns false is a lock or an unlock |
| `Lock.RunLockTask` | Lock.php:101-161 | the step, with the message and the record built step by step, equals the specification `LockTask` |
| `Lock.StepCommands` | Lock.php:101-161 | every step issues the marker read first and at most one more command, and issues a second command exactly when it returns false |
| `Lock.CorruptedForEveryAction` | Lock.php:103 | a corrupted marker raises the skip error for every action, unlock included, and issues nothing after the read |
| `Lock.LockedRefuses` | Lock.php:105-117 | a non-empty record refuses every action other than UNLOCK with that record's message, and nothing is written or removed |
| `Lock.EmptyRecordIsNotLocked` | Lock.php:105 | a marker that decodes to an empty array raises nothing |
| `Lock.StepErrors` | Lock.php:103-117 | a step raises iff the marker is corrupted, or it holds a non-empty record and the action is not UNLOCK |
| `Lock.LockWhenFree` | Lock.php:119-148 | LOCK on a host without a lock writes `echo "<encoded record>" > .mage_lock` and returns false |
| `Lock.UnlockWhenReadable` | Lock.php:150-158 | UNLOCK on a host with a readable marker issues `rm -f .mage_lock` and returns false, whether or not a record is present |
| `Lock.StepPasses` | Lock.php:105-160 | a step returns true iff the action only probes and the marker is readable and holds no non-empty record |
| `Lock.StepIgnoresOtherReplies` | Lock.php:139-157 | the step depends on no remote reply but the marker read, so the result is false whether or not the write or removal succeeded |
| `LockRun.Fold` | Lock.php:78-94 | the `&&` loop from an accumulator: it returns true only from a true accumulator, and raises only from a true accumulator after stepping at least one host |
| `LockRun.Run` | Lock.php:74-95 | the host loop equals the short-circuit `&&` fold from `true` over the normalised hosts; a raised error ends the run |
| `LockRun.FoldAfterFalse` | Lock.php:91 | once the accumulator is false, no later host is stepped and the run returns false |
| `LockRun.FoldCharacterised` | Lock.php:78-94 | the run steps exactly the hosts up to and including the first whose step does not return true, and returns that step's result, or true when every step returns true |
| `LockRun.RunPasses` | Lock.php:78-94 | the run returns true iff every host's step returns true |
| `LockRun.RunNoHosts` | Lock.php:78-80 | an empty host list returns true and steps nothing |
| `LockRun.LockAndUnlockReachOnlyFirstHost` | Lock.php:91 | with LOCK or UNLOCK and at least one host, only the first host is stepped, and the run returns its result, which is never true |
| `LockRun.ErrorEndsRun` | Lock.php:91 | when the run raises, the error comes from the last host stepped, and every earlier host's step returned true |

## Left out

- Console output and `Console::readInput`. The prompts and the coloured status lines are not modelled. The three typed answers are an input. They are read once per run, which is exact because at most one host is ever locked in a run.
- The success flag of the write and removal commands only selects the console line, so it is not modelled beyond the fact that the command is issued.
- `runCommandLocal` and `runCommandRemote`, with the execution of their shell commands, are oracle functions. Local git commands are not listed among the issued commands.
- `base64_encode`, `json_encode`, `json_decode` and `base64_decode` are opaque functions. No codec round trip is claimed, because the code never relies on one.
- Floating-point JSON numbers are not among the modelled PHP values.
- `date('Y-m-d H:i:s')` is an opaque input string.
- `getConfig()->setHost`, `setHostConfig` and `getEnvironment` are not modelled: the host and its config are passed to the remote channel as a value. `getHosts` is the input host list.
- `AbstractTask::getParameter` is not part of this model. A parameter that is not given reads as null, its default here.
- The trimming of captured output is done by the console helper, which is not part of this model. The output is taken as given.
- Concurrent runs against the same marker are not modelled. The code is sequential and makes no promise about them.
