/**
 * The objects of pbs3's command layer: the process-wide prepend stack of
 * `with` contexts, the child process, the `RunningCommand` that wraps it, and
 * the `Command` that is baked and called.
 *
 * A child process is not run: what it does once started (its exit status and
 * the bytes it writes) is a `ChildRun` value handed to the call, and the model
 * records what is handed to the child (argument vector, options, input bytes).
 */
module Commands {
  import opened Wrappers
  import opened PyValues
  import opened ArgCompiler
  import opened CallOptions
  import opened ExitStatus
  import opened Resolution
  import opened CommandLine

  /** The exceptions a call, a wait or a context exit can raise. */
  datatype CallError =
    | ExitCodeError(e: ErrorReturnCode)
      /** `UnicodeDecodeError`, raised while `ErrorReturnCode.__init__` decodes a preview */
    | DecodeError(preview: seq<byte>)
      /** `TypeError`, raised while `ErrorReturnCode.__init__` formats a redirect placeholder */
    | TypeError
      /** an attribute looked up on `None` (`.stdout`, `.process.stdout`, `.encode`) */
    | AttributeError
      /** `pop` from an empty list */
    | IndexError

  /**
   * What `raise get_rc_exc(rc)(...)` raises: the exception itself when its
   * message can be built, else the `TypeError` or `UnicodeDecodeError` its
   * `__init__` raised.
   */
  function Raised(e: ErrorReturnCode): (r: CallError)
    requires Out in e.callArgs && Err in e.callArgs
    ensures r.ExitCodeError? || r.DecodeError? || r.TypeError?
    ensures r.TypeError? <==> !e.NotesFormat()
    ensures e.NotesFormat() ==> (r.ExitCodeError? <==> Decodes(e.StdoutPreview()) && Decodes(e.StderrPreview()))
    ensures r.ExitCodeError? ==> r.e == e
    ensures r.DecodeError? ==> !Decodes(r.preview)
  {
    match e.Message()
    case Success(_) => ExitCodeError(e)
    case Failure(NoteTypeError) => TypeError
    case Failure(Undecodable(preview)) => DecodeError(preview)
  }

  /**
   * A failing command whose stdout goes to a file named by a tuple of two
   * strings raises `TypeError` while its exception is built.
   */
  lemma TupleTargetRaisesTypeError(kind: ErrorClass, fullCmd: string, err: Option<seq<byte>>, callArgs: Options)
    requires Out in callArgs && Err in callArgs
    requires callArgs[Out] == Items([Text("a"), Text("b")], Tuple)
    ensures Raised(ErrorReturnCode(kind, fullCmd, None, err, callArgs)) == TypeError
  {
    assert !NoteFormats(callArgs[Out]);
  }

  /**
   * A failing command whose stdout is 199 letters `a` and then 'é' raises
   * `UnicodeDecodeError`, not its `ErrorReturnCode_<n>`.
   */
  lemma SplitCharacterRaisesDecodeError(kind: ErrorClass, fullCmd: string, err: Option<seq<byte>>, callArgs: Options)
    requires Out in callArgs && Err in callArgs
    requires err.Some? || NoteFormats(callArgs[Err])
    ensures var b := Utf8Encode(seq(199, _ => 'a') + "\U{E9}");
      Raised(ErrorReturnCode(kind, fullCmd, Some(b), err, callArgs)).DecodeError?
  {
    SplitCharacterMessageFails(kind, fullCmd, err, callArgs);
  }

  /** `CommandNotFound(program)` */
  datatype CommandNotFound = CommandNotFound(program: string)

  // ---------------------------------------------------------------------------
  // The prepend stack

  /** `Command._prepend_stack`: the tokens of the active `with` contexts, outermost first. */
  class PrependStack {
    var entries: seq<seq<string>>

    constructor ()
      ensures entries == []
    {
      entries := [];
    }

    /** The tokens every command called now is prefixed with. */
    function Prefix(): seq<string>
      reads this
    {
      Concat(entries)
    }

    /** `_prepend_stack.append(entry)` */
    method Push(entry: seq<string>)
      modifies this
      ensures entries == old(entries) + [entry]
      ensures Prefix() == old(Prefix()) + entry
    {
      entries := entries + [entry];
      ConcatAppend(old(entries), [entry]);
      assert Concat([entry]) == Concat([]) + entry;
    }

    /** `_prepend_stack.pop()`: the last entry, or `IndexError` on an empty stack. */
    method Pop() returns (r: Result<seq<string>, CallError>)
      modifies this
      ensures old(entries) == [] ==> r == Failure(IndexError) && entries == []
      ensures old(entries) != [] ==>
        r == Success(old(entries)[|old(entries)| - 1]) && entries == old(entries)[..|old(entries)| - 1]
      ensures old(entries) != [] ==> old(Prefix()) == Prefix() + r.value
    {
      if entries == [] {
        return Failure(IndexError);
      }
      r := Success(entries[|entries| - 1]);
      entries := entries[..|entries| - 1];
    }
  }

  // ---------------------------------------------------------------------------
  // Child processes

  /** What a child does once started: its exit status and the bytes it writes to each stream. */
  datatype ChildRun = ChildRun(status: int, out: seq<byte>, err: seq<byte>)

  /** The `stdin=` of `Popen`: inherited (foreground), a new pipe, or the stdout pipe of another process. */
  datatype StdinSource = InheritStdin | NewPipe | PipeFrom(source: Process)

  /** A stream as `communicate` returns it: the bytes when it is a pipe, `None` otherwise. */
  function Captured(captures: bool, bytes: seq<byte>): (r: Option<seq<byte>>)
    ensures r.Some? <==> captures
  {
    if captures then Some(bytes) else None
  }

  /** Is stdout a pipe: not in the foreground and not redirected. */
  predicate CapturesOut(opts: Options)
    requires Fg in opts && Out in opts
  {
    !Truthy(opts[Fg]) && !Truthy(opts[Out])
  }

  /** Is stderr a pipe: not in the foreground, not redirected, not sent to stdout. */
  predicate CapturesErr(opts: Options)
    requires Fg in opts && Err in opts && ErrToOut in opts
  {
    !Truthy(opts[Fg]) && !Truthy(opts[Err]) && !Truthy(opts[ErrToOut])
  }

  /** `buf.decode(...)` on a stored stream: the bytes, or `AttributeError` on `None`. */
  function StoredStream(buf: Option<seq<byte>>): (r: Result<seq<byte>, CallError>)
    ensures r.Success? <==> buf.Some?
    ensures r.Success? ==> r.value == buf.value
    ensures r.Failure? ==> r.error == AttributeError
  {
    if buf.Some? then Success(buf.value) else Failure(AttributeError)
  }

  /** A `subprocess.Popen` object. */
  class Process {
    const argv: seq<string>
    const env: Value
    const cwd: Value
    const stdin: StdinSource
    const capturesOut: bool
    const capturesErr: bool
    const run: ChildRun
    var returncode: Option<int>
    /** the bytes handed to `communicate` */
    var input: Option<seq<byte>>

    constructor (argv: seq<string>, env: Value, cwd: Value, stdin: StdinSource,
                 capturesOut: bool, capturesErr: bool, run: ChildRun)
      ensures this.argv == argv && this.env == env && this.cwd == cwd && this.stdin == stdin
      ensures this.capturesOut == capturesOut && this.capturesErr == capturesErr && this.run == run
      ensures returncode == None && input == None
    {
      this.argv := argv;
      this.env := env;
      this.cwd := cwd;
      this.stdin := stdin;
      this.capturesOut := capturesOut;
      this.capturesErr := capturesErr;
      this.run := run;
      returncode := None;
      input := None;
    }

    /** `communicate(data)`: feeds the input, reads the piped streams to the end and reaps the child. */
    method Communicate(data: Option<seq<byte>>) returns (out: Option<seq<byte>>, err: Option<seq<byte>>)
      modifies this
      ensures out == Captured(capturesOut, run.out) && err == Captured(capturesErr, run.err)
      ensures returncode == Some(run.status) && input == data
    {
      input := data;
      returncode := Some(run.status);
      out := Captured(capturesOut, run.out);
      err := Captured(capturesErr, run.err);
    }

    /** `wait()` on a reaped child: its exit status. */
    method Wait() returns (status: int)
      requires returncode.Some?
      ensures status == returncode.value
    {
      status := returncode.value;
    }
  }

  // ---------------------------------------------------------------------------
  // Running commands

  /** The `stdin` a `RunningCommand` is created with. */
  datatype PendingInput =
    | NoInput
      /** the text of a finished command piped into this one, as its bytes */
    | PipedOutput(bytes: seq<byte>)
      /** the value of the `in` option */
    | GivenInput(v: Value)

  /** Whether `v.encode("utf8")` exists: a string, or a `RunningCommand` passing it on to its output text. */
  predicate Encodable(v: Value) {
    v.Text? || (v.Object? && v.objectKind.RunningOutput?)
  }

  /** `if stdin: stdin = stdin.encode("utf8")`: the bytes fed to the child, or the error `encode` raises. */
  function InputBytes(input: PendingInput): (r: Result<Option<seq<byte>>, CallError>)
    ensures r.Failure? <==> input.GivenInput? && Truthy(input.v) && !Encodable(input.v)
    ensures r.Success? && r.value.Some? ==> r.value.value != []
    ensures input.GivenInput? && !Truthy(input.v) ==> r == Success(None)
    ensures input.GivenInput? && Truthy(input.v) && Encodable(input.v) ==>
      r == Success(Some(Utf8Encode(Str(input.v))))
  {
    match input
    case NoInput => Success(None)
    case PipedOutput(b) => if b != [] then Success(Some(b)) else Success(None)
    case GivenInput(v) =>
      if !Truthy(v) then Success(None)
      else if v.Text? then
        Utf8EncodeLength(v.s);
        Success(Some(Utf8Encode(v.s)))
      else if v.Object? && v.objectKind.RunningOutput? then
        Utf8EncodeLength(v.text);
        Success(Some(Utf8Encode(v.text)))
      else Failure(AttributeError)
  }

  /** A false object given as `in` (`b""`, `{}`, `set()`) leaves the call with the input it had, piped or none. */
  lemma FalsyObjectInput(opts: Options, pending: PendingInput, id: nat, text: string, reprText: string)
    requires In in opts && opts[In] == Object(id, text, reprText, Plain(false))
    ensures Command.InputFor(opts, pending) == pending
    ensures InputBytes(Command.InputFor(opts, pending)) == InputBytes(pending)
  {
  }

  /** A finished `RunningCommand` given as `in` feeds its output text, encoded, to the child. */
  lemma RunningCommandInput(opts: Options, pending: PendingInput, id: nat, text: string, reprText: string)
    requires In in opts && opts[In] == Object(id, text, reprText, RunningOutput) && text != ""
    ensures InputBytes(Command.InputFor(opts, pending)) == Success(Some(Utf8Encode(text)))
  {
    assert Command.InputFor(opts, pending) == GivenInput(opts[In]);
  }

  /** What `wait` returns: nothing when the child was already reaped, else the text of its output. */
  datatype WaitOutcome = AlreadyFinished | Finished(output: seq<byte>) | WaitFailed(error: CallError)

  /** The result of a `RunningCommand`. */
  class RunningCommand {
    const commandRan: string
    const process: Process?
    const callArgs: Options
    var stdoutBuf: Option<seq<byte>>
    var stderrBuf: Option<seq<byte>>

    /** The options are complete and `ok_code` is a list, as `Command.__call__` leaves them. */
    predicate Valid() {
      Complete(callArgs) && callArgs[OkCode].Items?
    }

    /** The attribute assignments of `__init__`. */
    constructor (commandRan: string, process: Process?, callArgs: Options)
      ensures this.commandRan == commandRan && this.process == process && this.callArgs == callArgs
      ensures stdoutBuf == None && stderrBuf == None
    {
      this.commandRan := commandRan;
      this.process := process;
      this.callArgs := callArgs;
      stdoutBuf := None;
      stderrBuf := None;
    }

    /**
     * `RunningCommand(command_ran, process, call_args, stdin)`: returns at once
     * in the background or for a `with` context; otherwise feeds the input,
     * waits for the child and applies the exit-status check.
     */
    static method Start(commandRan: string, process: Process?, callArgs: Options, input: PendingInput,
                        registry: ErrorRegistry) returns (r: Result<RunningCommand, CallError>)
      requires Complete(callArgs) && callArgs[OkCode].Items?
      requires registry.Valid()
      modifies process, registry
      ensures registry.Valid()
      ensures r.Success? ==> fresh(r.value) && r.value.Valid()
      ensures r.Success? ==>
        r.value.commandRan == commandRan && r.value.process == process && r.value.callArgs == callArgs
      ensures Truthy(callArgs[Bg]) || Truthy(callArgs[With]) ==>
        r.Success? && r.value.stdoutBuf == None && r.value.stderrBuf == None &&
        (process != null ==> unchanged(process)) && unchanged(registry)
      ensures !Truthy(callArgs[Bg]) && !Truthy(callArgs[With]) && process == null ==>
        r == Failure(AttributeError) && unchanged(registry)
      ensures !Truthy(callArgs[Bg]) && !Truthy(callArgs[With]) && process != null && InputBytes(input).Failure? ==>
        r == Failure(InputBytes(input).error) && unchanged(process) && unchanged(registry)
      ensures !Truthy(callArgs[Bg]) && !Truthy(callArgs[With]) && process != null && InputBytes(input).Success? ==>
        process.returncode == Some(process.run.status) && process.input == InputBytes(input).value &&
        (r.Success? <==> Accepts(process.run.status, callArgs)) &&
        (r.Success? ==>
          r.value.stdoutBuf == Captured(process.capturesOut, process.run.out) &&
          r.value.stderrBuf == Captured(process.capturesErr, process.run.err) &&
          unchanged(registry)) &&
        (r.Failure? ==>
           CacheAfterLookup(old(registry.cache), registry.cache, process.run.status) &&
           r.error == Raised(ErrorReturnCode(
             registry.cache[process.run.status], commandRan,
             Captured(process.capturesOut, process.run.out), Captured(process.capturesErr, process.run.err),
             callArgs)))
    {
      var rc := new RunningCommand(commandRan, process, callArgs);
      if Truthy(callArgs[Bg]) {
        return Success(rc);
      }
      if Truthy(callArgs[With]) {
        return Success(rc);
      }
      if process == null {
        return Failure(AttributeError);
      }
      var data := InputBytes(input);
      if data.Failure? {
        return Failure(data.error);
      }
      var out, err := process.Communicate(data.value);
      rc.stdoutBuf, rc.stderrBuf := out, err;
      var status := process.Wait();
      var failure := rc.HandleExitCode(status, registry);
      if failure.Some? {
        return Failure(failure.value);
      }
      return Success(rc);
    }

    /**
     * `_handle_exit_code(rc)`: raises exactly when `rc` is not in `ok_code`,
     * after `get_rc_exc` has fetched or made the class of `rc`.
     */
    method HandleExitCode(rc: int, registry: ErrorRegistry) returns (failure: Option<CallError>)
      requires Valid() && registry.Valid()
      modifies registry
      ensures registry.Valid()
      ensures failure.None? <==> Accepts(rc, callArgs)
      ensures failure.None? ==> unchanged(registry)
      ensures failure.Some? ==>
        CacheAfterLookup(old(registry.cache), registry.cache, rc) && registry.cache[rc].code == rc &&
        failure.value == Raised(ErrorReturnCode(registry.cache[rc], commandRan, stdoutBuf, stderrBuf, callArgs))
    {
      if Accepts(rc, callArgs) {
        return None;
      }
      var kind := registry.GetRcExc(rc);
      return Some(Raised(ErrorReturnCode(kind, commandRan, stdoutBuf, stderrBuf, callArgs)));
    }

    /** The text `str()` gives once the child has finished: the captured stdout, or nothing. */
    function Output(): seq<byte>
      reads this
    {
      if stdoutBuf.Some? then stdoutBuf.value else []
    }

    /**
     * `wait()`: nothing to do once the child has been reaped; otherwise collects
     * its streams, applies the exit-status check and returns the output.
     */
    method Wait(registry: ErrorRegistry) returns (w: WaitOutcome)
      requires Valid() && registry.Valid()
      modifies this, process, registry
      ensures registry.Valid()
      ensures process == null ==> w == WaitFailed(AttributeError) && unchanged(this) && unchanged(registry)
      ensures process != null && old(process.returncode).Some? ==>
        w == AlreadyFinished && unchanged(this) && unchanged(process) && unchanged(registry)
      ensures process != null && old(process.returncode).None? ==>
        process.returncode == Some(process.run.status) && process.input == None &&
        stdoutBuf == Captured(process.capturesOut, process.run.out) &&
        stderrBuf == Captured(process.capturesErr, process.run.err) &&
        (w.Finished? <==> Accepts(process.run.status, callArgs)) &&
        (w.Finished? ==> w.output == Output() && unchanged(registry)) &&
        (!w.Finished? ==>
           CacheAfterLookup(old(registry.cache), registry.cache, process.run.status) &&
           w == WaitFailed(Raised(ErrorReturnCode(
             registry.cache[process.run.status], commandRan, stdoutBuf, stderrBuf, callArgs))))
    {
      if process == null {
        return WaitFailed(AttributeError);
      }
      if process.returncode.Some? {
        return AlreadyFinished;
      }
      stdoutBuf, stderrBuf := process.Communicate(None);
      var status := process.Wait();
      var failure := HandleExitCode(status, registry);
      if failure.Some? {
        return WaitFailed(failure.value);
      }
      return Finished(Output());
    }

    /** The `stdout` property: waits first in the background, then gives the captured bytes. */
    method Stdout(registry: ErrorRegistry) returns (r: Result<seq<byte>, CallError>)
      requires Valid() && registry.Valid()
      modifies this, process, registry
      ensures registry.Valid()
      ensures !Truthy(callArgs[Bg]) ==>
        unchanged(this) && (process != null ==> unchanged(process)) && unchanged(registry) &&
        r == StoredStream(stdoutBuf)
      ensures Truthy(callArgs[Bg]) && process == null ==>
        r == Failure(AttributeError) && unchanged(this) && unchanged(registry)
      ensures Truthy(callArgs[Bg]) && process != null && old(process.returncode).Some? ==>
        unchanged(this) && unchanged(process) && unchanged(registry) && r == StoredStream(stdoutBuf)
      ensures Truthy(callArgs[Bg]) && process != null && old(process.returncode).None? ==>
        process.returncode == Some(process.run.status) && process.input == None &&
        stdoutBuf == Captured(process.capturesOut, process.run.out) &&
        stderrBuf == Captured(process.capturesErr, process.run.err) &&
        (Accepts(process.run.status, callArgs) ==> r == StoredStream(stdoutBuf) && unchanged(registry)) &&
        (!Accepts(process.run.status, callArgs) ==>
           CacheAfterLookup(old(registry.cache), registry.cache, process.run.status) &&
           r == Failure(Raised(ErrorReturnCode(
             registry.cache[process.run.status], commandRan, stdoutBuf, stderrBuf, callArgs))))
    {
      if Truthy(callArgs[Bg]) {
        var w := Wait(registry);
        if w.WaitFailed? {
          return Failure(w.error);
        }
      }
      return StoredStream(stdoutBuf);
    }

    /** The `stderr` property: waits first in the background, then gives the captured bytes. */
    method Stderr(registry: ErrorRegistry) returns (r: Result<seq<byte>, CallError>)
      requires Valid() && registry.Valid()
      modifies this, process, registry
      ensures registry.Valid()
      ensures !Truthy(callArgs[Bg]) ==>
        unchanged(this) && (process != null ==> unchanged(process)) && unchanged(registry) &&
        r == StoredStream(stderrBuf)
      ensures Truthy(callArgs[Bg]) && process == null ==>
        r == Failure(AttributeError) && unchanged(this) && unchanged(registry)
      ensures Truthy(callArgs[Bg]) && process != null && old(process.returncode).Some? ==>
        unchanged(this) && unchanged(process) && unchanged(registry) && r == StoredStream(stderrBuf)
      ensures Truthy(callArgs[Bg]) && process != null && old(process.returncode).None? ==>
        process.returncode == Some(process.run.status) && process.input == None &&
        stdoutBuf == Captured(process.capturesOut, process.run.out) &&
        stderrBuf == Captured(process.capturesErr, process.run.err) &&
        (Accepts(process.run.status, callArgs) ==> r == StoredStream(stderrBuf) && unchanged(registry)) &&
        (!Accepts(process.run.status, callArgs) ==>
           CacheAfterLookup(old(registry.cache), registry.cache, process.run.status) &&
           r == Failure(Raised(ErrorReturnCode(
             registry.cache[process.run.status], commandRan, stdoutBuf, stderrBuf, callArgs))))
    {
      if Truthy(callArgs[Bg]) {
        var w := Wait(registry);
        if w.WaitFailed? {
          return Failure(w.error);
        }
      }
      return StoredStream(stderrBuf);
    }

    /** `__exit__`: leaving the `with` block of a `_with=True` call pops its prefix, if any is left. */
    method Exit(stack: PrependStack)
      requires Valid()
      modifies stack
      ensures Truthy(callArgs[With]) && old(stack.entries) != [] ==>
        stack.entries == old(stack.entries)[..|old(stack.entries)| - 1]
      ensures !(Truthy(callArgs[With]) && old(stack.entries) != []) ==> stack.entries == old(stack.entries)
    {
      if Truthy(callArgs[With]) && stack.entries != [] {
        var _ := stack.Pop();
      }
    }
  }

  // ---------------------------------------------------------------------------
  // Commands

  /**
   * `cmd1 == cmd2`: for commands whose path and baked tokens are plain (no
   * spaces), equal exactly when both have the same path and the same baked
   * tokens; how they were baked (options, keyword order) does not matter.
   */
  lemma CommandsEqualIff(c1: Command, c2: Command)
    requires PlainToken(c1.path) && forall k :: 0 <= k < |c1.bakedArgs| ==> PlainToken(c1.bakedArgs[k])
    requires PlainToken(c2.path) && forall k :: 0 <= k < |c2.bakedArgs| ==> PlainToken(c2.bakedArgs[k])
    ensures c1.Equals(c2.AsString()) <==> c1.path == c2.path && c1.bakedArgs == c2.bakedArgs
  {
    TextFormEqualIff(c1.path, c1.bakedArgs, c2.path, c2.bakedArgs);
  }

  /** Does `__getattribute__` look the name up as an attribute rather than bake it? */
  predicate IsOwnAttribute(name: string) {
    (|name| > 0 && name[0] == '_') || name == "bake"
  }

  /** The options a call runs with; piping from a background command forces the background. */
  function RunOptions(kwargs: Kwargs, baked: Options, pipedBackground: bool): (opts: Options)
    ensures Complete(opts) && opts[OkCode].Items?
    ensures pipedBackground ==> opts[Bg] == Bool(true)
  {
    var opts := CallOptionsFor(kwargs, baked);
    if pipedBackground then opts[Bg := Bool(true)] else opts
  }

  /** The `stdin=` of a call that does not read from a background command. */
  function StdinFor(opts: Options): StdinSource
    requires Fg in opts
  {
    if Truthy(opts[Fg]) then InheritStdin else NewPipe
  }

  /** `Command`: a resolved path with baked tokens and baked options. */
  class Command {
    var path: string
    var partial: bool
    var bakedArgs: seq<string>
    var bakedOptions: Options

    constructor (path: string)
      ensures this.path == path && !partial && bakedArgs == [] && bakedOptions == map[]
    {
      this.path := path;
      partial := false;
      bakedArgs := [];
      bakedOptions := map[];
    }

    /** `Command.create(program)`: resolves the program, or raises `CommandNotFound`. */
    static method Create(program: string, which: Which) returns (r: Result<Command, CommandNotFound>)
      ensures ResolveProgram(program, which).None? ==> r == Failure(CommandNotFound(program))
      ensures ResolveProgram(program, which).Some? ==>
        r.Success? && fresh(r.value) && r.value.path == ResolveProgram(program, which).value &&
        !r.value.partial && r.value.bakedArgs == [] && r.value.bakedOptions == map[]
    {
      var path := ResolveProgram(program, which);
      if path.None? {
        return Failure(CommandNotFound(program));
      }
      var c := new Command(path.value);
      return Success(c);
    }

    /** `str(cmd)`: the path, then the baked tokens after a space. */
    function AsString(): (r: string)
      reads this
      ensures |r| >= |path| && r[..|path|] == path
      ensures bakedArgs == [] ==> r == path
      ensures Join(bakedArgs, " ") != "" ==> r == path + " " + Join(bakedArgs, " ")
    {
      TextForm(path, bakedArgs)
    }

    /** `cmd == other`, where `other` is compared through its `str()`. */
    predicate Equals(other: string)
      reads this
      ensures Equals(other) ==> |other| >= |path| && other[..|path|] == path
      ensures bakedArgs == [] ==> (Equals(other) <==> other == path)
    {
      AsString() == other
    }

    /**
     * `bake(*args, **kwargs)`: a new command with the same path whose baked
     * tokens are these followed by the compiled new arguments, and whose
     * baked options are these overlaid with the new non-default options.
     */
    method Bake(args: seq<Value>, kwargs: Kwargs) returns (fn: Command)
      ensures fresh(fn)
      ensures fn.path == path && fn.partial
      ensures fn.bakedArgs == bakedArgs + Compiled(args, Unreserved(kwargs))
      ensures fn.bakedOptions == BakedOptions(bakedOptions, kwargs)
    {
      fn := new Command(path);
      fn.partial := true;
      var callArgs, rest := ExtractCallArgs(kwargs);
      var pruned := PruneDefaults(callArgs);
      fn.bakedOptions := bakedOptions + pruned;
      var tokens, _ := CompileArgs(args, rest);
      fn.bakedArgs := bakedArgs + tokens;
    }

    /** `cmd.name`: a private name or `bake` is looked up as usual; any other name is baked in as one token. */
    method Attribute(name: string) returns (r: Option<Command>)
      ensures IsOwnAttribute(name) ==> r.None?
      ensures !IsOwnAttribute(name) ==>
        r.Some? && fresh(r.value) && r.value.path == path && r.value.partial &&
        r.value.bakedArgs == bakedArgs + [name] && r.value.bakedOptions == bakedOptions
    {
      if IsOwnAttribute(name) {
        return None;
      }
      var fn := Bake([Text(name)], []);
      assert Unreserved([]) == [];
      assert PositionalTokens([Text(name)]) == PositionalTokens([]) + ArgTokens(Text(name));
      assert Compiled([Text(name)], []) == [name];
      BakeWithoutOptions(bakedOptions, []);
      return Some(fn);
    }

    /** `with cmd:` pushes the path alone. */
    method Enter(stack: PrependStack)
      modifies stack
      ensures stack.entries == old(stack.entries) + [[path]]
    {
      stack.Push([path]);
    }

    /** Leaving `with cmd:` pops the last prefix; an empty stack raises `IndexError`. */
    method Exit(stack: PrependStack) returns (failure: Option<CallError>)
      modifies stack
      ensures old(stack.entries) == [] ==> failure == Some(IndexError) && stack.entries == []
      ensures old(stack.entries) != [] ==>
        failure == None && stack.entries == old(stack.entries)[..|old(stack.entries)| - 1]
    {
      var r := stack.Pop();
      if r.Failure? {
        return Some(r.error);
      }
      return None;
    }

    /** Is a piped-in command one this call cannot read from? */
    static predicate PipeFails(piped: RunningCommand?)
      requires piped != null ==> piped.Valid()
      reads piped
    {
      piped != null &&
      (if Truthy(piped.callArgs[Bg]) then piped.process == null else piped.stdoutBuf.None?)
    }

    /** Is the call reading from a command that runs in the background? */
    static predicate PipedBackground(piped: RunningCommand?)
      requires piped != null ==> piped.Valid()
      reads piped
    {
      piped != null && Truthy(piped.callArgs[Bg])
    }

    /** The output of a finished piped-in command, which becomes the call's input. */
    static function PipedInput(piped: RunningCommand?): PendingInput
      requires piped != null ==> piped.Valid()
      reads piped
    {
      if piped != null && !Truthy(piped.callArgs[Bg]) && piped.stdoutBuf.Some? then PipedOutput(piped.stdoutBuf.value)
      else NoInput
    }

    /** The input of a spawned call: the `in` option when it is truthy, the piped input otherwise. */
    static function InputFor(opts: Options, pending: PendingInput): PendingInput
      requires In in opts
    {
      if Truthy(opts[In]) then GivenInput(opts[In]) else pending
    }

    /**
     * The `stdin=` of a call: a background command piped in hands over its
     * `process.stdout`, which is its pipe when it has one and `None`, so an
     * inherited stdin, when its stdout is redirected or in the foreground.
     */
    static function StdinOf(opts: Options, piped: RunningCommand?): (r: StdinSource)
      requires Fg in opts
      requires piped != null ==> piped.Valid()
      reads piped
      ensures r.PipeFrom? <==> PipedBackground(piped) && piped.process != null && piped.process.capturesOut
      ensures r.PipeFrom? ==> r.source == piped.process
      ensures PipedBackground(piped) && piped.process != null && !piped.process.capturesOut ==> r == InheritStdin
      ensures !PipedBackground(piped) ==> r == StdinFor(opts)
    {
      if PipedBackground(piped) && piped.process != null then
        if piped.process.capturesOut then PipeFrom(piped.process) else InheritStdin
      else StdinFor(opts)
    }

    /** The tokens of the active `with` contexts, in order (the loop that opens `__call__`). */
    static method PrefixTokens(stack: PrependStack) returns (cmd: seq<string>)
      ensures cmd == stack.Prefix()
    {
      cmd := [];
      var i := 0;
      while i < |stack.entries|
        invariant 0 <= i <= |stack.entries|
        invariant cmd == Concat(stack.entries[..i])
      {
        assert stack.entries[..i + 1][..i] == stack.entries[..i];
        cmd := cmd + stack.entries[i];
        i := i + 1;
      }
      assert stack.entries[..i] == stack.entries;
    }

    /** The per-call options overlaid with the baked ones, `ok_code` made a list. */
    method OptionsForCall(kwargs: Kwargs) returns (callArgs: Options, rest: Kwargs)
      ensures callArgs == CallOptionsFor(kwargs, bakedOptions)
      ensures rest == Unreserved(kwargs)
    {
      callArgs, rest := ExtractCallArgs(kwargs);
      callArgs := callArgs + bakedOptions;
      if !callArgs[OkCode].Items? {
        callArgs := callArgs[OkCode := Items([callArgs[OkCode]], List)];
      }
    }

    /**
     * The pipe set-up of `__call__`: a background command piped in makes this
     * call run in the background and read its stdout pipe; a finished one
     * hands over its captured output. Either fails on a missing process or
     * missing output.
     */
    static method Connect(callArgs: Options, piped: RunningCommand?)
      returns (r: Result<(Options, StdinSource, PendingInput), CallError>)
      requires Complete(callArgs) && callArgs[OkCode].Items?
      requires piped != null ==> piped.Valid()
      ensures r.Failure? <==> PipeFails(piped)
      ensures r.Failure? ==> r.error == AttributeError
      ensures r.Success? ==>
        r.value.0 == (if PipedBackground(piped) then callArgs[Bg := Bool(true)] else callArgs) &&
        r.value.1 == StdinOf(callArgs, piped) &&
        r.value.2 == PipedInput(piped)
    {
      var opts := callArgs;
      var stdin := StdinFor(callArgs);
      var input: PendingInput := NoInput;
      if piped != null {
        if Truthy(piped.callArgs[Bg]) {
          opts := opts[Bg := Bool(true)];
          if piped.process == null {
            return Failure(AttributeError);
          }
          stdin := if piped.process.capturesOut then PipeFrom(piped.process) else InheritStdin;
        } else {
          if piped.stdoutBuf.None? {
            return Failure(AttributeError);
          }
          input := PipedOutput(piped.stdoutBuf.value);
        }
      }
      return Success((opts, stdin, input));
    }

    /**
     * The option and pipe handling of `__call__`: the options the call runs
     * with, where its stdin comes from, the input it is handed, and the
     * keyword arguments left for the argument compiler.
     */
    method Prepare(kwargs: Kwargs, piped: RunningCommand?)
      returns (r: Result<(Options, StdinSource, PendingInput), CallError>, rest: Kwargs)
      requires piped != null ==> piped.Valid()
      ensures rest == Unreserved(kwargs)
      ensures r.Failure? <==> PipeFails(piped)
      ensures r.Failure? ==> r.error == AttributeError
      ensures r.Success? ==>
        r.value.0 == RunOptions(kwargs, bakedOptions, PipedBackground(piped)) &&
        r.value.1 == StdinOf(r.value.0, piped) &&
        r.value.2 == PipedInput(piped)
    {
      var callArgs;
      callArgs, rest := OptionsForCall(kwargs);
      r := Connect(callArgs, piped);
      if r.Success? {
        assert StdinOf(r.value.0, piped) == StdinOf(callArgs, piped);
      }
    }

    /** The tokens the call contributes by itself: the path, the baked tokens and the compiled arguments. */
    method OwnArgv(args: seq<Value>, kwargs: Kwargs, rest: Kwargs) returns (own: seq<string>)
      requires rest == Unreserved(kwargs)
      ensures own == OwnTokens(path, bakedArgs, args, kwargs)
    {
      var tokens, _ := CompileArgs(args, rest);
      own := [path] + bakedArgs + tokens;
    }

    /**
     * A `_with=True` call: nothing runs; the call's whole token vector, the
     * enclosing prefixes included, becomes the prefix of every command called
     * until the context is left.
     */
    static method EnterWith(stack: PrependStack, cmd: seq<string>, commandRan: string, opts: Options)
      returns (running: RunningCommand)
      modifies stack
      ensures stack.entries == old(stack.entries) + [cmd]
      ensures stack.Prefix() == old(stack.Prefix()) + cmd
      ensures fresh(running) && running.process == null
      ensures running.commandRan == commandRan && running.callArgs == opts
    {
      stack.Push(cmd);
      running := new RunningCommand(commandRan, null, opts);
    }

    /**
     * The rest of `__call__` once the tokens and options are known: a
     * `_with=True` call enters a context; any other call applies the `in`
     * option, chooses which streams to pipe, spawns the child and hands it to
     * `RunningCommand`.
     */
    static method Launch(stack: PrependStack, registry: ErrorRegistry, prefix: seq<string>, own: seq<string>,
                         opts: Options, stdin: StdinSource, pending: PendingInput, child: ChildRun)
      returns (r: Result<RunningCommand, CallError>)
      requires Complete(opts) && opts[OkCode].Items?
      requires registry.Valid()
      modifies stack, registry
      ensures registry.Valid()
      ensures Truthy(opts[With]) ==>
        r.Success? && fresh(r.value) && r.value.process == null && r.value.callArgs == opts &&
        r.value.commandRan == Join(prefix + own, " ") &&
        stack.entries == old(stack.entries) + [prefix + own] && unchanged(registry)
      ensures !Truthy(opts[With]) ==> stack.entries == old(stack.entries)
      ensures r.Success? && r.value.process != null ==>
        fresh(r.value) && fresh(r.value.process) && r.value.Valid() && r.value.callArgs == opts &&
        r.value.commandRan == Join(prefix + own, " ") && r.value.process.argv == prefix + own &&
        r.value.process.run == child && r.value.process.env == opts[Env] && r.value.process.cwd == opts[Cwd] &&
        r.value.process.stdin == stdin &&
        r.value.process.capturesOut == CapturesOut(opts) && r.value.process.capturesErr == CapturesErr(opts)
      ensures !Truthy(opts[With]) && Truthy(opts[Bg]) ==>
        r.Success? && r.value.process != null && r.value.process.returncode == None && unchanged(registry)
      ensures !Truthy(opts[With]) && !Truthy(opts[Bg]) && InputBytes(InputFor(opts, pending)).Failure? ==>
        r == Failure(AttributeError) && unchanged(registry)
      ensures !Truthy(opts[With]) && !Truthy(opts[Bg]) && InputBytes(InputFor(opts, pending)).Success? ==>
        (r.Success? <==> Accepts(child.status, opts)) &&
        (r.Success? ==>
          r.value.process != null && r.value.process.returncode == Some(child.status) &&
          r.value.process.input == InputBytes(InputFor(opts, pending)).value &&
          r.value.stdoutBuf == Captured(r.value.process.capturesOut, child.out) &&
          r.value.stderrBuf == Captured(r.value.process.capturesErr, child.err) &&
          unchanged(registry)) &&
        (r.Failure? ==>
           CacheAfterLookup(old(registry.cache), registry.cache, child.status) &&
           r.error == Raised(ErrorReturnCode(registry.cache[child.status], Join(prefix + own, " "),
             Captured(CapturesOut(opts), child.out), Captured(CapturesErr(opts), child.err), opts)))
    {
      var cmd := prefix + own;
      var commandRan := Join(cmd, " ");
      if Truthy(opts[With]) {
        var running := EnterWith(stack, cmd, commandRan, opts);
        return Success(running);
      }
      var input := pending;
      if Truthy(opts[In]) {
        input := GivenInput(opts[In]);
      }
      var fg := Truthy(opts[Fg]);
      var capturesOut := !fg && !Truthy(opts[Out]);
      var capturesErr := !fg && !Truthy(opts[Err]) && !Truthy(opts[ErrToOut]);
      assert capturesOut == CapturesOut(opts) && capturesErr == CapturesErr(opts);
      var process := new Process(cmd, opts[Env], opts[Cwd], stdin, capturesOut, capturesErr, child);
      r := RunningCommand.Start(commandRan, process, opts, input, registry);
    }

    /**
     * `cmd(*args, **kwargs)`, where `piped` is a first positional argument
     * that is a `RunningCommand` (null when there is none) and `child` is
     * what the child process does once spawned. A `_with=True` call pushes
     * its whole token vector onto the prepend stack instead of running, so a
     * nested one repeats the enclosing prefixes (`WithEntryAsWrittenRepeatsPrefix`).
     */
    method Call(stack: PrependStack, registry: ErrorRegistry, piped: RunningCommand?, args: seq<Value>,
                kwargs: Kwargs, child: ChildRun) returns (r: Result<RunningCommand, CallError>)
      requires registry.Valid()
      requires piped != null ==> piped.Valid()
      modifies stack, registry
      ensures registry.Valid()
      ensures PipeFails(piped) ==>
        r == Failure(AttributeError) && stack.entries == old(stack.entries) && unchanged(registry)
      ensures !PipeFails(piped) && Truthy(RunOptions(kwargs, bakedOptions, PipedBackground(piped))[With]) ==>
        r.Success? && fresh(r.value) && r.value.process == null &&
        r.value.callArgs == RunOptions(kwargs, bakedOptions, PipedBackground(piped)) &&
        r.value.commandRan == Join(CallArgv(old(stack.entries), path, bakedArgs, args, kwargs), " ") &&
        stack.entries == old(stack.entries) + [WithEntryAsWritten(old(stack.entries), OwnTokens(path, bakedArgs, args, kwargs))] &&
        unchanged(registry)
      ensures !PipeFails(piped) && !Truthy(RunOptions(kwargs, bakedOptions, PipedBackground(piped))[With]) ==>
        stack.entries == old(stack.entries)
      ensures r.Success? && r.value.process != null ==>
        fresh(r.value) && fresh(r.value.process) && r.value.Valid() &&
        r.value.callArgs == RunOptions(kwargs, bakedOptions, PipedBackground(piped)) &&
        r.value.commandRan == Join(CallArgv(old(stack.entries), path, bakedArgs, args, kwargs), " ") &&
        r.value.process.argv == CallArgv(old(stack.entries), path, bakedArgs, args, kwargs) &&
        r.value.process.run == child &&
        r.value.process.stdin == StdinOf(r.value.callArgs, piped)
      ensures var opts := RunOptions(kwargs, bakedOptions, PipedBackground(piped));
        !PipeFails(piped) && !Truthy(opts[With]) && !Truthy(opts[Bg]) &&
        InputBytes(InputFor(opts, PipedInput(piped))).Success? ==>
          (r.Success? <==> Accepts(child.status, opts)) &&
          (r.Success? ==>
             r.value.process != null && r.value.process.returncode == Some(child.status) && unchanged(registry)) &&
          (r.Failure? ==>
             CacheAfterLookup(old(registry.cache), registry.cache, child.status) &&
             r.error == Raised(ErrorReturnCode(
               registry.cache[child.status], Join(CallArgv(old(stack.entries), path, bakedArgs, args, kwargs), " "),
               Captured(CapturesOut(opts), child.out), Captured(CapturesErr(opts), child.err), opts)))
      ensures var opts := RunOptions(kwargs, bakedOptions, PipedBackground(piped));
        !PipeFails(piped) && !Truthy(opts[With]) && !Truthy(opts[Bg]) &&
        InputBytes(InputFor(opts, PipedInput(piped))).Failure? ==>
          r == Failure(AttributeError) && unchanged(registry)
      ensures var opts := RunOptions(kwargs, bakedOptions, PipedBackground(piped));
        !PipeFails(piped) && !Truthy(opts[With]) && Truthy(opts[Bg]) ==>
          r.Success? && r.value.process != null && r.value.process.returncode == None && unchanged(registry)
    {
      // Aggregate any with contexts
      ghost var argv := CallArgv(stack.entries, path, bakedArgs, args, kwargs);
      var prefix := PrefixTokens(stack);

      var connection, rest := Prepare(kwargs, piped);
      if connection.Failure? {
        return Failure(connection.error);
      }
      var opts, stdin, input := connection.value.0, connection.value.1, connection.value.2;
      assert opts == RunOptions(kwargs, bakedOptions, PipedBackground(piped));
      var own := OwnArgv(args, kwargs, rest);
      assert prefix + own == argv;
      r := Launch(stack, registry, prefix, own, opts, stdin, input, child);
    }
  }
}
