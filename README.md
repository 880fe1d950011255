# Ladybug debugger core, modelled in Dafny

Ladybug is an in-process Ruby debugger driven from the Chrome DevTools UI.
This project models three parts of it and proves properties of the model:

- **Debugger control state** (`debugger.dfy`, from `lib/ladybug/debugger.rb`).
  The `Debugger` class holds the breakpoint list and `@step_over_file`.
  `SetBreakpoint` and `RemoveBreakpoint` change the list. `OnTrace` is the
  halt decision taken on every trace event. `RunCommandLoop` is the loop
  the halted thread runs over the messages of `@to_main_thread`; it returns
  what it pushes to `@from_main_thread`. `Trace` is one call of the trace
  hook: the halt test, the pause information passed to `@on_pause`, and
  the loop.
- **Object registry and RemoteObject serialiser** (`object_manager.dfy`,
  from `lib/ladybug/object_manager.rb`). The registry maps ids to objects.
  `SerializeIn` and `PropertiesIn` are `serialize` and `get_properties` as
  pure functions that thread the registry through. The `ObjectManager`
  class holds the registry as mutable state, and its methods are proved
  to change it exactly as those functions say.
- **Script repository** (`script_repository.dfy`, from
  `lib/ladybug/script_repository.rb`). This part is pure: the
  `reject`/`select`/`map` pipeline that builds the script list, and `find`
  by attribute/value pairs.

Shared modules:

- `wrappers.dfy` holds `Option`.
- `numerals.dfy` holds `Decimal`, Ruby's `Integer#to_s`. It is used for
  breakpoint ids, array descriptions and index names. `ParseDecimal` is
  its proved inverse.
- `values.dfy` holds the Ruby values a paused scope can hold.

Inputs that Ruby gets from its host are parameters here:

- `binding.eval` is the `evaluate` function of a `Frame`. Every `eval` of
  one halt runs in the same binding, so the function receives the
  expressions evaluated before it in that binding as well as the text. It
  returns a value, a StandardError or another exception.
- The local variables, instance variables and caller label are given
  sequences and strings.
- The file system is a list of entries. Each entry carries its path, its
  directory flag, its absolute path and its stat data.
- `SecureRandom.uuid` is a counter in the registry. For scripts it is a
  function `uuid(k)`, the id of the k-th script.

Behaviour of the code worth noting:

- `set_breakpoint` appends without checking for an existing record, so the
  same location can carry several breakpoints. The id is the literal text
  `"filename:"` followed by the line; the file name is not part of it
  (debugger.rb:57). Removing an id therefore removes that line in every
  file.
- The hook halts at an event when a breakpoint has its file and line, or
  when the event is in the file of the last `step_over` (debugger.rb:84,
  137). Any later event in that file halts, in whatever method.
- The bare `rescue` around `binding.eval` catches only StandardError
  (debugger.rb:141-145). A SyntaxError or other non-standard exception
  leaves the hook instead of giving `nil`. The model calls this loop end
  `Escaped`.
- `get_properties` on a Hash keeps every entry. Its `reject` tests the
  serialised value, and `serialize` never returns `nil`
  (object_manager.rb:109).
- `find` of an id that was never registered returns `nil`
  (object_manager.rb:17-19).
- The model hands out ids from a counter `next`. `Registry.Valid()` says
  every registered id is below it, and `FindUnregistered` is stated for
  ids at or above it, that is, ids never handed out. The contracts of
  `RegisterIn`, `RegisterThenFind` and `RegisterTwice` promise only that
  the new id was not in the map before. The class methods are tied to
  `RegisterIn`, `SerializeIn`, `PropertiesIn` and `EntriesIn`, whose bodies
  are visible, so they hand out `next`: a caller can tell which id comes
  next, which a UUID does not allow.

## Model

| member | source | states |
|---|---|---|
| `Numerals.Digits` | lib/ladybug/debugger.rb:57 | the decimal digits of a natural number are at least one character, all in '0'..'9', and at least two for numbers from 10 up |
| `Numerals.Decimal` | lib/ladybug/debugger.rb:57 | `Integer#to_s`, used for the breakpoint id, for `Numeric#to_s` (object_manager.rb:43) and for array lengths and indices: at least one character, a leading "-" exactly for negative numbers, digits after it; `DecimalRoundTrip` proves it readable back |
| `Numerals.DigitsRoundTrip` | lib/ladybug/debugger.rb:57 | reading the digits of `n` back gives `n` |
| `Numerals.DecimalRoundTrip` | lib/ladybug/debugger.rb:57 | reading the text of any integer back gives the integer, minus sign included |
| `Numerals.DecimalInjective` | lib/ladybug/debugger.rb:57 | different integers have different `to_s` texts |
| `Debugger.BreakpointId` | lib/ladybug/debugger.rb:57 | the id is "filename:" followed by text that reads back as the line number; `BreakpointIdInjective` follows from it |
| `Debugger.BreakpointIdInjective` | lib/ladybug/debugger.rb:57 | equal breakpoint ids mean equal line numbers, whatever the files |
| `Debugger.IdOf` | lib/ladybug/debugger.rb:98 | defines the `breakpoint_id` of the pause information: the id of the breakpoint hit, or `nil`; `OnTrace` and `Trace` state it for the first match |
| `Debugger.FirstMatch` | lib/ladybug/debugger.rb:80-82 | `@breakpoints.find` is `nil` iff no breakpoint has that file and line; otherwise it is the first such breakpoint in list order |
| `Debugger.Halts` | lib/ladybug/debugger.rb:80-86 | the hook halts iff some breakpoint is at the event's file and line or the step-over file is the event's file |
| `Debugger.WithoutId` | lib/ladybug/debugger.rb:69 | after `delete_if`, a record remains iff it was in the list and its id differs from the given id |
| `Debugger.WithoutIdAppend` | lib/ladybug/debugger.rb:69 | deleting distributes over concatenation, so the survivors keep their original order |
| `Debugger.WithoutAbsentId` | lib/ladybug/debugger.rb:69 | deleting an id that no record carries leaves the list unchanged |
| `Debugger.RemoveIdempotent` | lib/ladybug/debugger.rb:65-70 | removing the same id twice leaves the same list as removing it once |
| `Debugger.RemoveByLine` | lib/ladybug/debugger.rb:57-69 | removing the id of line `l` removes exactly the breakpoints on line `l`, in every file |
| `Debugger.RemovedLineNeverMatches` | lib/ladybug/debugger.rb:65-82 | after that removal, no breakpoint matches an event on line `l` in any file |
| `Debugger.SetBreakpointMatches` | lib/ladybug/debugger.rb:53-63 | a newly appended breakpoint matches an event at its own file and line |
| `Debugger.SetThenRemove` | lib/ladybug/debugger.rb:53-70 | setting a breakpoint and then removing its id leaves what removing the id alone would leave |
| `Debugger.ResumeMessage` | lib/ladybug/debugger.rb:32-34 | defines what `resume` enqueues, a `continue` command; `ControllerSession` and `CommandLoop` state its effect |
| `Debugger.StepOverMessage` | lib/ladybug/debugger.rb:36-38 | defines what `step_over` enqueues; `ControllerSession` and `AfterStepOver` state its effect |
| `Debugger.EvaluateMessage` | lib/ladybug/debugger.rb:40-46 | defines what `evaluate(expression)` enqueues, an `eval` command with the expression; `ControllerSession` states its result |
| `Debugger.Evaluation` | lib/ladybug/debugger.rb:139-145 | defines an `eval` in the binding after the earlier expressions; a message without arguments raises a StandardError (NoMethodError); `ResultAt` states where its outcome goes |
| `Debugger.Pushed` | lib/ladybug/debugger.rb:140-146 | defines the value pushed for an `eval`: the returned value, or `nil` when the exception was rescued; `ResultAt` and `ControllerSession` state it |
| `Debugger.EndsLoop` | lib/ladybug/debugger.rb:130-145 | defines the messages that end the loop: `continue`, `step_over`, or an `eval` whose exception is not a StandardError; `StopIndex` and `CommandLoop` state the loop in terms of it |
| `Debugger.StopIndex` | lib/ladybug/debugger.rb:126-148 | the loop stops at the first `continue`, `step_over` or unrescued `eval` message; no earlier message stops it |
| `Debugger.StopFrom` | lib/ladybug/debugger.rb:126-148 | scanning from index `i`, the first message at or after `i` that ends the loop, with none in between |
| `Debugger.Results` | lib/ladybug/debugger.rb:139-146 | defines the values pushed to `@from_main_thread` by the `eval` messages of a prefix, in order; `ResultsCount` and `ResultAt` state their number and position |
| `Debugger.ResultsCount` | lib/ladybug/debugger.rb:139-146 | each `eval` message pushes exactly one result |
| `Debugger.ResultAt` | lib/ladybug/debugger.rb:139-146 | the result of the `eval` at index `j` sits at the position given by the number of `eval`s before it, so results arrive in command order; it is what the binding gives after the expressions before it, or `nil` for a rescued failure |
| `Debugger.EvaluateMessages` | lib/ladybug/debugger.rb:40-46 | one `eval` message per `evaluate` call, as many as there are expressions |
| `Debugger.EvaluateHistory` | lib/ladybug/debugger.rb:40-46 | after a run of `evaluate` calls the binding has seen exactly their expressions, in order, and there are as many `eval` messages as expressions |
| `Debugger.CommandLoop` | lib/ladybug/debugger.rb:126-148 | the loop consumes up to and including the first ending message, or all messages when none ends it; `continue` clears `@step_over_file`; `step_over` sets it to the halted file; `eval` and unknown commands do not end the loop; an escaping exception or running out of messages leaves the field unchanged |
| `Debugger.ControllerSession` | lib/ladybug/debugger.rb:32-50 | `evaluate(e1..en)` followed by `resume` or `step_over` yields one result per expression, in order, the i-th evaluated after e1..e(i-1), and resumes after n+1 messages, provided no evaluation raises an exception the `rescue` does not catch |
| `Debugger.StatefulBinding` | lib/ladybug/debugger.rb:139-146 | two `evaluate("x")` calls can get different values, 1 and then 2, when the binding counts its evaluations; equal texts are not forced to equal results |
| `Debugger.AfterContinue` | lib/ladybug/debugger.rb:131-133 | after `continue`, an event halts iff a breakpoint is at its file and line |
| `Debugger.AfterStepOver` | lib/ladybug/debugger.rb:134-138 | after `step_over`, an event halts iff it is in the same file or a breakpoint is at it |
| `Debugger.Debugger.constructor` | lib/ladybug/debugger.rb:6-14 | a new debugger has no breakpoints and no step-over file |
| `Debugger.Debugger.Start` | lib/ladybug/debugger.rb:74-75 | building the hook clears `@step_over_file` |
| `Debugger.Debugger.SetBreakpoint` | lib/ladybug/debugger.rb:53-63 | appends exactly one record `(file, line, "filename:<line>")` and keeps the earlier records; no uniqueness check, so a repeated call adds a duplicate; returns the id |
| `Debugger.Debugger.RemoveBreakpoint` | lib/ladybug/debugger.rb:65-70 | the list becomes `WithoutId` of the old list; returns the remaining list |
| `Debugger.Debugger.OnTrace` | lib/ladybug/debugger.rb:80-86 | halts iff some breakpoint has the event's file and line or `@step_over_file` is the event's file; the reported id is that of the first matching breakpoint, or `nil` when only the step-over rule fired |
| `Debugger.Debugger.RunCommandLoop` | lib/ladybug/debugger.rb:126-148 | the results, the number of messages consumed, the loop end and the new `@step_over_file` are those of `CommandLoop` |
| `Debugger.Debugger.Trace` | lib/ladybug/debugger.rb:77-152 | a non-halting event consumes no messages and changes nothing; a halting one reports the first matching id, the caller label, locals, instance variables, file and line, then runs the command loop |
| `ObjectManager.RegisterIn` | lib/ladybug/object_manager.rb:23-27 | `register` returns an id absent from the map beforehand and adds exactly that entry |
| `ObjectManager.RegisterThenFind` | lib/ladybug/object_manager.rb:17-27 | after `register`, `find(id)` is the object and every other id resolves as before |
| `ObjectManager.RegisterTwice` | lib/ladybug/object_manager.rb:23-27 | registering one object twice gives two distinct ids that both resolve to it |
| `ObjectManager.FindUnregistered` | lib/ladybug/object_manager.rb:17-19 | `find` of an id never handed out is `nil` |
| `ObjectManager.Lookup` | lib/ladybug/object_manager.rb:17-19 | `find(id)` is `nil` iff the id is not registered, and otherwise the object stored under it; `RegisterThenFind` and `FindUnregistered` state it across `register` |
| `ObjectManager.ClassName` | lib/ladybug/object_manager.rb:60 | defines `object.class.to_s`: "Array", "Hash", or the class name of another object; `SerializeArray` and `SerializeIn` (through `Represents`) state it in the result |
| `ObjectManager.Description` | lib/ladybug/object_manager.rb:61 | defines the description, "Array(n)" for an array (line 61) and `to_s` otherwise (line 84); `SerializeArray` and `SerializeIn` state it in the result |
| `ObjectManager.Entry` | lib/ladybug/object_manager.rb:101-116 | defines the i-th name/value pair a container lists: an array element named by its index, a hash entry named by its key, an instance variable named by its Symbol (lines 131-133); `EntriesShape` states the properties built from them |
| `ObjectManager.IvarHash` | lib/ladybug/object_manager.rb:131-133 | defines `ivar_hash`, one entry per instance variable, in order; `PropertiesFallback` and `SameEntries` state that its properties are the object's fallback |
| `ObjectManager.SerializeIn` | lib/ladybug/object_manager.rb:31-88 | `serialize` only adds entries to the registry; Strings, Numerics, true/false and Symbols get their type, the value itself and its text, and leave the registry unchanged, as does `nil`; everything else gets an `objectId` that resolves back to it |
| `ObjectManager.PropertiesIn` | lib/ladybug/object_manager.rb:96-137 | `get_properties` keeps the registry consistent and only adds entries to it |
| `ObjectManager.EntriesIn` | lib/ladybug/object_manager.rb:99-116 | serialising the pairs of a container in turn only adds registry entries |
| `ObjectManager.EntriesShape` | lib/ladybug/object_manager.rb:99-135 | one property per pair, in order, named as the pair and representing its value in the final registry |
| `ObjectManager.HashProperties` | lib/ladybug/object_manager.rb:99-109 | for a Hash: one property per entry, in insertion order, named by the key; the `reject` drops nothing |
| `ObjectManager.SerializeArray` | lib/ladybug/object_manager.rb:57-73 | an Array gets subtype "array", class "Array" and description "Array(n)", under a new id that resolves to it; its preview repeats type, subtype, className, description and objectId, has `overflow` false and lists the n elements in order under the names "0".."n-1" |
| `ObjectManager.SerializeRegistersOnce` | lib/ladybug/object_manager.rb:80-86 | a Hash or other object is registered exactly once, under a new id, and has no preview |
| `ObjectManager.SerializeNil` | lib/ladybug/object_manager.rb:74-79 | `serialize(nil)` is `{type: "object", subtype: "null", value: nil}` and registers nothing |
| `ObjectManager.PropertiesFallback` | lib/ladybug/object_manager.rb:96-137 | an object's properties are those of its first conversion in the order debug view, `to_a`, `attributes`, `to_hash`, `to_h`; with none, they are those of the Hash of its instance variables |
| `ObjectManager.SameEntries` | lib/ladybug/object_manager.rb:130-135 | listing the instance variables directly gives the same properties as listing the Hash built from them |
| `ObjectManager.ObjectManager.constructor` | lib/ladybug/object_manager.rb:12-14 | a new manager has an empty registry |
| `ObjectManager.ObjectManager.Find` | lib/ladybug/object_manager.rb:17-19 | `find` answers from the current registry |
| `ObjectManager.ObjectManager.Register` | lib/ladybug/object_manager.rb:23-27 | the map changes by exactly one new entry, under an id not in it before |
| `ObjectManager.ObjectManager.Serialize` | lib/ladybug/object_manager.rb:31-88 | the registry and the result are those of `SerializeIn` on the old registry |
| `ObjectManager.ObjectManager.GetProperties` | lib/ladybug/object_manager.rb:96-137 | the registry and the result are those of `PropertiesIn` on the old registry |
| `ObjectManager.ObjectManager.SerializeEntries` | lib/ladybug/object_manager.rb:99-116 | the `map` over a container's pairs serialises them left to right, as `EntriesIn` says |
| `ScriptRepository.Attribute` | lib/ladybug/script_repository.rb:23 | defines `script[key]` on the OpenStruct: the field for the six keys, `nil` for any other; `FindUnknownKeyNil` and `FindById` state its effect on `find` |
| `ScriptRepository.MatchesAll` | lib/ladybug/script_repository.rb:22-24 | defines the `args.all?` block: every pair's value equals the script's attribute; `FindIn` and `FindEmptyQuery` state `find` in terms of it |
| `ScriptRepository.FindIn` | lib/ladybug/script_repository.rb:20-26 | `find` is `nil` iff no script matches all pairs; otherwise it is the first script in list order that matches every pair |
| `ScriptRepository.Extname` | lib/ladybug/script_repository.rb:34 | `File.extname`: empty, or a "." followed by characters that are neither "." nor "/"; `RubyExtension` states when it is ".rb" |
| `ScriptRepository.RubyExtension` | lib/ladybug/script_repository.rb:34 | `File.extname` is ".rb" iff the base name ends in ".rb" after a stem that is not all dots |
| `ScriptRepository.RejectDirectories` | lib/ladybug/script_repository.rb:33 | an entry survives `reject` iff it was in the input and is not a directory |
| `ScriptRepository.SelectRuby` | lib/ladybug/script_repository.rb:34 | an entry survives `select` iff it was in the input and its extension is ".rb" |
| `ScriptRepository.Filter` | lib/ladybug/script_repository.rb:33-34 | an element survives `select` (and, with the negated block, `reject`) iff it was in the input and the block accepts it |
| `ScriptRepository.FilterAppend` | lib/ladybug/script_repository.rb:33-34 | filtering distributes over concatenation, so the survivors keep their input order |
| `ScriptRepository.FilesAppend` | lib/ladybug/script_repository.rb:32-34 | the `reject`-then-`select` pipeline keeps input order |
| `ScriptRepository.ToScript` | lib/ladybug/script_repository.rb:35-45 | defines the OpenStruct built for one file; `EnumeratedScripts` states its fields |
| `ScriptRepository.EnumerateScripts` | lib/ladybug/script_repository.rb:31-47 | defines `enumerate_scripts` as reject, select and map; `EnumeratedScripts`, `EnumerateOne` and `FilesAppend` state what it yields |
| `ScriptRepository.EnumerateOne` | lib/ladybug/script_repository.rb:33-34 | a single entry is kept iff it is a non-directory with extension ".rb" |
| `ScriptRepository.EnumeratedScripts` | lib/ladybug/script_repository.rb:31-47 | the scripts are exactly the non-directory ".rb" entries, in input order; script k has the k-th id and its file's path, absolute path, size and time; its `virtual_url` is ROOT_URL + "/" + path |
| `ScriptRepository.Repository.Find` | lib/ladybug/script_repository.rb:20-26 | a non-nil result is an element of `all` that matches every pair; `nil` iff no script does |
| `ScriptRepository.NewRepository` | lib/ladybug/script_repository.rb:12-18 | `all` is the list enumerated at construction |
| `ScriptRepository.Repository.All` | lib/ladybug/script_repository.rb:16-18 | `all` returns the list built at construction; `NewRepository` states it |
| `ScriptRepository.FindEmptyQuery` | lib/ladybug/script_repository.rb:22 | `find({})` is the first script, or `nil` for an empty list |
| `ScriptRepository.FindUnknownKeyNil` | lib/ladybug/script_repository.rb:22-23 | asking for an unknown key with value `nil` matches every script, since an OpenStruct answers `nil` for it |
| `ScriptRepository.FindById` | lib/ladybug/script_repository.rb:20-26 | with distinct ids, looking a script up by its id finds that script |

## Left out

- `lib/ladybug/middleware.rb` is not part of this model. It is Rack and WebSocket plumbing, and it calls methods the debugger does not define.
- `set_trace_func` and the instruction-sequence compile option are the host's hook. The model calls `Trace` directly. The event kind is not a parameter, because the hook never looks at it: every kind of event at a matching location halts.
- The blocking of `Queue#pop` and `push`, and the rendezvous between the two threads, are concurrency. The queues are a message sequence in and a result sequence out. Running out of messages is the loop end `Waiting`.
- `binding.eval`, `local_variable_get`, `instance_variable_get` and `Kernel.caller_locations` are reflection. Their results are inputs, as a `Frame`. An exception raised while the hook gathers the variables is not modelled.
- `Debugger.Evaluation`: every evaluation is assumed to return. An `eval` that never returns (`loop {}`) would keep the thread from popping the next message; the model has no such outcome, so `ControllerSession`'s resume after n+1 messages assumes none occurs.
- Arrays and hashes that contain themselves (`a = []; a << a`) are not modelled. `Value` is a finite tree; in Ruby `serialize` and `get_properties` would call each other on such an array until the stack overflows.
- `Debugger.Evaluation`: an evaluation depends on the expressions evaluated before it in the same binding. It does not see changes made by other threads, and the local and instance variables reported to `@on_pause` are those read before the loop.
- Hash keys and instance-variable names are assumed distinct. `Value` does not enforce it, and `HashProperties` would list a repeated key twice.
- The `@on_pause` and `@on_resume` callbacks are foreign closures. The model records what `@on_pause` receives (`PauseInfo`) and whether `@on_resume` is called (`LoopResult.Resumed`). Registering other callbacks is not modelled.
- What happens after an exception escapes the hook, in the traced program, is not modelled beyond the loop end `Escaped`.
- `remove_breakpoint` splits the id on ":" and converts the line with `to_i`, then discards both. These have no effect, so they are not modelled. A `nil` id, which would raise there, is not modelled: ids are strings.
- `SecureRandom.uuid`: the registry uses a counter, and scripts use the function `uuid`. Nothing is proved about script ids being distinct, since that depends on the random source.
- `Dir.glob`, `File.directory?`, `File.stat` and `File.expand_path` are file-system I/O. Their results are fields of `FileEntry`. `Basename` takes the text after the last "/" and does not strip trailing slashes, which `Dir.glob` never produces.
- Floating-point and other non-integer `Numeric` values are not modelled. `to_s` of a Hash or another object is an opaque `text` field. The class name of an Array is always "Array" and that of a Hash always "Hash", so Array and Hash subclasses, for which `object.class.to_s` gives the subclass's name, are not modelled. Builtin Strings, Arrays and Hashes are assumed not to define `chrome_debug_properties`.
- `ObjectManager.PropertiesIn` and `ObjectManager.EntriesIn` state in their own contracts only that the registry stays consistent and grows. The shape of their results is stated by `EntriesShape`, `HashProperties`, `SerializeArray` and `PropertiesFallback`.
