# pbs3 — a verified model of the command layer

pbs3 lets a Python program call any executable on the `PATH` as if it
were a function: `ls("-l", "/tmp")`, `cut(d="\t")`, `git.commit(m="msg")`.
A `Command` holds a resolved path, baked argument tokens and baked
options. Calling it does five things:

- compiles the Python arguments into command-line tokens;
- splits off the options passed under reserved `_name` keys (`_bg`,
  `_with`, `_out`, `_ok_code`, and the rest);
- prepends the tokens of every enclosing `with` context;
- starts the child process;
- wraps the child in a `RunningCommand`.

The `RunningCommand` collects the output and, if the exit status is not
accepted, raises `ErrorReturnCode_<status>`. That class is made once per
status and cached. Its message previews at most 200 bytes of each
captured stream.

This project models that core in Dafny:

- values.dfy (`PyValues`) holds the Python values the library handles:
  - `str`, `repr`, `==` and `is True`, with lists and tuples told apart;
  - decimal text of integers;
  - `replace("_", "-")` and `" ".join`;
  - UTF-8 encoding, and a strict decoder proved to be its inverse.
- arg_compiler.dfy (`ArgCompiler`) models `_compile_args`. Two loops are
  proved against specification functions: positional arguments, with
  lists flattened one level and empty lists warned about, and keyword
  arguments as `-k v`, `-k`, `--key=v` or `--key`.
- call_options.dfy (`CallOptions`) holds:
  - the table of options and their defaults;
  - the extraction loop of `_extract_call_args`;
  - the pruning loop of `bake`;
  - how baked and per-call options combine;
  - `ok_code` normalisation and acceptance.
- resolution.dfy (`Resolution`) models `resolve_program`. `which` is a
  parameter: a function from name to found path.
- exit_status.dfy (`ExitStatus`) holds:
  - the `rc_exc_cache` registry as a class, with `get_rc_exc`;
  - the exception's stream previews and its message, which fails to build
    when a redirect placeholder does not format or a preview is not valid
    UTF-8;
  - the lemmas behind the second finding below.
- command_line.dfy (`CommandLine`) holds:
  - the argument vector of a call: prefixes, path, baked tokens and new
    tokens;
  - `str(cmd)`, and reading it back;
  - the lemmas behind the first finding below.
- commands.dfy (`Commands`) holds the stateful objects as classes:
  - the process-wide prepend stack;
  - the `Popen` object;
  - `RunningCommand`;
  - `Command`, with `bake`, attribute access, `with`, and `__call__`.

The child does not run. What it does once started (its exit status and
the bytes it writes to each stream) is a `ChildRun` value passed to
`Command.Call`. The model records what is handed to the child: the
argument vector, `env`, `cwd`, the stdin source, which streams are
piped, and the input bytes. Exceptions are returned as values
(`CallError`, `CommandNotFound`). The operations follow the code as
written, including the two defects listed under "## Findings"; the
corrected definitions stand beside them, each with its property proved.

Where a reader of the library's own design description might expect
otherwise, the model follows the code:

- Baked options override per-call options. `call_args.update(self._partial_call_args)`
  runs after extraction (pbs3.py:314-315). See `CallOptions.BakedOptionWins`.
- `with cmd:` pushes only the path, not the baked tokens (pbs3.py:299).
- `str(cmd)` adds the space only when the joined baked text is not empty
  (pbs3.py:290-291).

## Model

| member | source | states |
|---|---|---|
| PyValues.PyEqReflexive | pbs3.py:273 | every value equals itself under Python `==`, so an option passed at its default compares equal to it |
| PyValues.PyEqSymmetric | pbs3.py:273 | Python `==` on option values is symmetric, also across `True == 1` and `False == 0` |
| PyValues.DigitChar | pbs3.py:58 | the character for digit `d` is a decimal digit whose code is `'0' + d` |
| PyValues.NatToStringRoundTrip | pbs3.py:58 | the `%d` text of a natural number is a non-empty digit string that reads back as that number |
| PyValues.IntToStringRoundTrip | pbs3.py:235 | `str(i)` of any integer reads back as `i`, sign included |
| PyValues.IntToStringInjective | pbs3.py:58 | distinct integers have distinct decimal texts |
| PyValues.JoinAppend | pbs3.py:290 | `" ".join` of two non-empty lists is the two joins with one separator between them |
| PyValues.ReplaceUnderscores | pbs3.py:261 | `replace("_", "-")` keeps the length, leaves no underscore, and changes exactly the underscores |
| PyValues.Repr | pbs3.py:235 | `repr` of a string is a quoted literal that reads back as that string; a list is shown in square brackets and a tuple in parentheses, a one-element tuple with its trailing comma |
| PyValues.Str | pbs3.py:235 | `str` of a string is the string itself, of an object its own `__str__` text, and of any other value its `repr` |
| PyValues.UnescapeChar | pbs3.py:235 | one escaped character followed by more text reads back as that character followed by the rest |
| PyValues.EscapeRoundTrip | pbs3.py:235 | the escaped body of a literal reads back as the original string, for either delimiter |
| PyValues.StrLiteralRoundTrip | pbs3.py:235 | `repr(s)` of any string is a literal whose reading is `s` |
| PyValues.StrLiteralQuote | pbs3.py:235 | the literal opens and closes with the same quote, the double quote exactly when the string holds `'` and no `"` |
| PyValues.SingletonStr | pbs3.py:235 | a one-element list shows `[` + repr + `]` and a one-element tuple `(` + repr + `,)` |
| PyValues.TupleStrExamples | pbs3.py:258 | `str((1, 2))` is `(1, 2)` and `str((1,))` is `(1,)`, with the one-element tuple's trailing comma |
| PyValues.TextElementStr | pbs3.py:249 | a string inside a one-element list is shown as its literal |
| PyValues.DoubleQuotedLiteral | pbs3.py:235 | `repr("it's")` is `"it's"`, between double quotes |
| PyValues.DoubleQuotedElement | pbs3.py:258 | for every string holding `'` and no `"`, `str([s])` is `["` + the escaped string + `"]` (so `str(["it's"])` is `["it's"]`, with DoubleQuotedLiteral's escape) |
| PyValues.EscapedTabLiteral | pbs3.py:235 | `repr("a\tb")` writes the tab as `\t` |
| PyValues.EscapedTabExample | pbs3.py:258 | `str(["a\tb"])` is `['a\tb']` |
| PyValues.ObjectElementExample | pbs3.py:249 | an object is shown by its `__repr__` inside a list (`[PosixPath('a')]`) and by its `__str__` on its own (`a`) |
| PyValues.EncodeChar | pbs3.py:109 | a character encodes to one to four bytes, and to one byte exactly when it is ASCII |
| PyValues.AsciiEncoding | pbs3.py:28 | an ASCII string encodes to one byte per character, each byte the character's code |
| PyValues.Utf8EncodeAppend | pbs3.py:33 | encoding a concatenation is concatenating the encodings |
| PyValues.Utf8EncodeLength | pbs3.py:109 | a text of `n` characters encodes to between `n` and `4n` bytes |
| PyValues.EncodeCharShape | pbs3.py:45 | an encoded character is a lead byte followed only by continuation bytes, and its lead byte is in `C0`-`DF` exactly when it takes two bytes |
| PyValues.EncodedLeadsComplete | pbs3.py:45 | in every encoded text, each lead byte of a two-byte character is followed by a continuation byte |
| PyValues.NotDecodable | pbs3.py:45 | bytes in which a two-byte lead is cut short are not the encoding of any text, so strict `.decode()` fails on them |
| PyValues.DecodesConcat | pbs3.py:45 | two byte strings that decode still decode when concatenated |
| PyValues.EncodedPrefixDecodes | pbs3.py:45 | a prefix of an encoded text that ends where a character starts is itself an encoded text |
| PyValues.DecodeFirst | pbs3.py:45 | the strict decoder reads one to four bytes for the first character |
| PyValues.DecodeFirstEncodeChar | pbs3.py:45 | decoding the front of an encoded character gives the character back and consumes exactly its bytes |
| PyValues.DecodeFirstEncoded | pbs3.py:45 | the bytes the decoder consumes are the encoding of the character it returns |
| PyValues.EncodeFront | pbs3.py:45 | encoding a text is encoding its first character, then the rest |
| PyValues.DecodeEncoded | pbs3.py:45 | strict decoding undoes encoding: `s.encode().decode() == s` |
| PyValues.EncodeDecoded | pbs3.py:45 | what strict decoding returns encodes back to the same bytes |
| PyValues.DecodesIff | pbs3.py:45 | strict `.decode()` succeeds exactly on the bytes that are the encoding of some text |
| ArgCompiler.ArgTokens | pbs3.py:243-250 | a list or tuple argument gives one `str` token per element, in order; any other argument gives exactly its `str` (`PyValues.Str`: a nested tuple in parentheses, strings inside it as quoted literals, objects by their `repr`) |
| ArgCompiler.AppendEach | pbs3.py:249 | the loop over a list's elements appends the `str` of every element, in order, after the existing tokens |
| ArgCompiler.AppendKeyword | pbs3.py:256-263 | appending one keyword argument adds exactly that argument's tokens |
| ArgCompiler.PositionalStep | pbs3.py:243-250 | one more positional argument adds its tokens at the end, and adds its position to the warnings exactly when it is an empty list |
| ArgCompiler.KeywordStep | pbs3.py:253-263 | one more keyword argument adds its tokens after those of the earlier ones |
| ArgCompiler.CompilePositional | pbs3.py:243-250 | the positional loop yields the positional tokens, and warns at exactly the positions of empty lists |
| ArgCompiler.AppendKeywords | pbs3.py:253-263 | the keyword loop appends the tokens of every keyword argument, in iteration order |
| ArgCompiler.CompileArgs | pbs3.py:239-264 | `_compile_args` returns all positional tokens followed by all keyword tokens, with a warning for each empty list |
| ArgCompiler.PositionalTokensAppend | pbs3.py:243-250 | compiling two argument lists one after the other gives the tokens of their concatenation |
| ArgCompiler.PositionalOrder | pbs3.py:243-250 | the tokens of argument `i` sit between the tokens of the arguments before it and those after it |
| ArgCompiler.PositionalTokensAround | pbs3.py:243-250 | the tokens of an argument sit between those of the arguments around it |
| ArgCompiler.ScalarArgumentsOneTokenEach | pbs3.py:250 | with no list among the arguments, argument `k` becomes exactly token `k`, its `str` |
| ArgCompiler.EmptyListAddsNothing | pbs3.py:244-249 | an empty list or tuple argument contributes no token |
| ArgCompiler.WarningsMarkEmptyLists | pbs3.py:245-248 | a position draws a warning exactly when the argument there is an empty list or tuple |
| ArgCompiler.AllKeywordTokensAppend | pbs3.py:253-263 | compiling two keyword lists one after the other gives the tokens of their concatenation |
| ArgCompiler.KeywordSlice | pbs3.py:253-263 | the tokens of keyword argument `i` occupy the slice of the output that starts where the earlier arguments' tokens end |
| ArgCompiler.ShortKeyword | pbs3.py:256-258 | a one-letter key `k` gives the token `-k`, followed by `str(v)` exactly when `v` is not `True` |
| ArgCompiler.LongKeyword | pbs3.py:260-263 | a longer key gives one token: `--key` when the value is `True`, `--key=str(v)` otherwise, with every underscore of the key turned into a dash |
| ArgCompiler.PositionalThenCall | pbs3.py:344 | baked positional tokens followed by the tokens of a call are the tokens of both argument lists compiled together |
| ArgCompiler.OneKeyword | pbs3.py:253-263 | a lone keyword argument compiles to exactly its own tokens |
| ArgCompiler.ShortKeywordExamples | tests/test_runps.py:72-103 | `d="\t"` compiles to `-d` and a tab; `v=True` compiles to `-v` |
| ArgCompiler.TupleKeywordExample | pbs3.py:256-258 | `ls(x=(1, 2))` compiles to `-x` followed by `(1, 2)`, the tuple's own `str` |
| ArgCompiler.LongKeywordExamples | tests/test_runps.py:84-123 | `name="test"`, `verbose=True` and `no_create_home=True` compile to `--name=test`, `--verbose` and `--no-create-home` |
| CallOptions.AllOptionsListed | pbs3.py:187-200 | the table of call options lists every option |
| CallOptions.Position | pbs3.py:187-200 | every option has a position in the table, and the table holds that option there |
| CallOptions.ListedOnce | pbs3.py:187-200 | no option appears twice in the table |
| CallOptions.PositionStep | pbs3.py:227 | the options before position `i + 1` are those before `i` and the one at `i` |
| CallOptions.OptionNamed | pbs3.py:187-200 | looking an option up by its name gives an option with that name |
| CallOptions.OptionNamedName | pbs3.py:187-200 | every option is found by its own name |
| CallOptions.Defaults | pbs3.py:187-200 | the defaults give every option a value |
| CallOptions.ReservedOption | pbs3.py:228 | a key names an option only when it is `"_"` followed by the option's name |
| CallOptions.ReservedOptionOfKey | pbs3.py:228 | the key `"_" + name` names that option |
| CallOptions.KeyOfOption | pbs3.py:228 | a key is the reserved key of an option exactly when it names that option |
| CallOptions.RemoveAbsentKey | pbs3.py:229-231 | deleting a key that is not present changes nothing |
| CallOptions.ExtractedOptions | pbs3.py:223-232 | the extracted options give every option a value |
| CallOptions.RemoveKeyWithout | pbs3.py:231 | deleting one more reserved key from what is left is removing all those keys at once |
| CallOptions.FindWithout | pbs3.py:229 | in what is left, the key of an option not yet handled is found exactly as in the original arguments, and an already-handled one is gone |
| CallOptions.Partial | pbs3.py:226-231 | after any number of loop steps every option still has a value |
| CallOptions.PartialEnds | pbs3.py:226-232 | before the loop the options are the defaults; after it they are the extracted options |
| CallOptions.PartialStep | pbs3.py:229-230 | step `i` sets option `i` to the passed value exactly when its reserved key was passed |
| CallOptions.ExtractStep | pbs3.py:229-231 | step `i` finds option `i` in what is left as in the original arguments, and deleting its key leaves one more key removed |
| CallOptions.ExtractEnds | pbs3.py:225-232 | the loop starts from the arguments and the defaults, and ends at the unreserved arguments and the extracted options |
| CallOptions.ExtractOne | pbs3.py:228-231 | one iteration keeps the extraction invariant for one more option |
| CallOptions.ExtractCallArgs | pbs3.py:223-232 | `_extract_call_args` returns, per option, the passed value or the default, and the arguments without any reserved key |
| CallOptions.WithoutNothing | pbs3.py:225 | removing no keys leaves the arguments as they are |
| CallOptions.UnreservedMembers | pbs3.py:223-232 | an argument is left over exactly when it was passed and its key is not reserved for one of the handled options |
| CallOptions.NoOptionsPassThrough | pbs3.py:223-232 | arguments with no reserved key pass through extraction unchanged |
| CallOptions.NotFoundUnlessPresent | pbs3.py:229 | with no reserved key among the arguments, no option is found |
| CallOptions.PrunedUpToEnds | pbs3.py:270-275 | pruning starts from the extracted options and ends at the pruned options |
| CallOptions.PruneReaches | pbs3.py:271-275 | the first `i` pruning steps leave option `i` as it was |
| CallOptions.PruneStep | pbs3.py:272-275 | step `i` deletes option `i` exactly when it is present and equal to its default |
| CallOptions.PruneDefaults | pbs3.py:270-275 | the pruning loop deletes exactly the options equal to their defaults, and skips missing ones |
| CallOptions.DefaultNeverOverrides | pbs3.py:269-277 | an option that is not passed, or is passed at its default, leaves the previously baked value and its presence unchanged |
| CallOptions.NonDefaultOverlays | pbs3.py:269-277 | an option passed with a value other than its default is baked with that value |
| CallOptions.BakeWithoutOptions | pbs3.py:269-277 | baking with no reserved keys leaves the baked options unchanged |
| CallOptions.NormaliseOkCode | pbs3.py:319-320 | `ok_code` becomes a list: a list or tuple is kept, and any other value becomes a one-element list; other options are untouched |
| CallOptions.CallOptionsFor | pbs3.py:314-320 | the options of a call give every option a value, and `ok_code` is a list |
| CallOptions.BakedOptionWins | pbs3.py:314-320 | a baked option overrides whatever the call passes; a baked `ok_code` does too, and is then made a list |
| CallOptions.OkCodeOfCall | pbs3.py:314-320 | with no baked `ok_code`, the call's `ok_code` is the passed one, made a list |
| CallOptions.DefaultAcceptsOnlyZero | pbs3.py:176-178 | with `ok_code` neither passed nor baked, exactly status 0 is accepted |
| CallOptions.ScalarOkCodeAcceptsIt | pbs3.py:319-320 | `_ok_code=n` accepts exactly the status `n` |
| CallOptions.ListOkCodeAcceptsMembers | pbs3.py:176-178 | a list of codes accepts exactly its members |
| Resolution.Candidates | pbs3.py:81-83 | the name as written is tried first |
| Resolution.ResolveProgram | pbs3.py:76-85 | the result is the first found candidate: the name as written, then its dashed form when it has an underscore; a found path is never empty |
| Resolution.FirstFoundNone | pbs3.py:81-84 | nothing is found exactly when `which` finds none of the candidates |
| Resolution.FirstFoundIsCandidate | pbs3.py:81-85 | a resolved path is what `which` returned for one of the candidates |
| Resolution.NotFoundIff | pbs3.py:81-84 | resolution fails exactly when neither the name nor, if it has an underscore, its dashed form is found |
| ExitStatus.PreviewAsWritten | pbs3.py:26-33 | as written: a redirected stream shows the placeholder; a captured one keeps its first 200 bytes, is longer than 200 exactly when the stream is, and is unchanged when short |
| ExitStatus.BoundaryCut | pbs3.py:30 | the cut is at most 200 bytes, keeps a short stream whole, lands where a character starts, and is the longest such cut |
| ExitStatus.Preview | pbs3.py:26-42 | corrected: a redirected stream shows the placeholder; a captured one keeps its bytes up to the boundary cut, and a short stream is unchanged |
| ExitStatus.PreviewMatchesAsWritten | pbs3.py:30-33 | when byte 200 starts a character, or the stream is short, the corrected preview is the as-written one |
| ExitStatus.PreviewDecodes | pbs3.py:44-45 | the corrected preview of a stream that decodes also decodes, and so does the placeholder |
| ExitStatus.TruncationSplitsCharacter | pbs3.py:30-45 | as written, 199 ASCII characters followed by a two-byte character form a stream that decodes, while its preview does not |
| ExitStatus.StreamEndsInLead | pbs3.py:30 | such a stream has 201 bytes, and its byte 200 is a two-byte lead |
| ExitStatus.NoteAfterCut | pbs3.py:30-33 | in the as-written preview of a 201-byte stream, byte 200 is kept and the note starts right after it with `.` |
| ExitStatus.TruncationSplitsE9 | pbs3.py:30-45 | 199 letters `a` followed by `é` give an as-written preview that does not decode |
| ExitStatus.DigitsAscii | pbs3.py:33 | the decimal text of a count is ASCII |
| ExitStatus.NoteTailAscii | pbs3.py:33 | the end of the note is ASCII |
| ExitStatus.MoreNoteAscii | pbs3.py:33 | the whole `... (N more, please see e.stdout)` note is ASCII |
| ExitStatus.AsciiEncodingInjective | pbs3.py:33 | two ASCII notes with the same bytes are the same text |
| ExitStatus.MoreNoteInjective | pbs3.py:33 | different omitted counts give different notes |
| ExitStatus.PreviewRecordsLength | pbs3.py:30-33 | two over-long streams with the same as-written preview have the same length |
| ExitStatus.ErrorReturnCode.StdoutPreview | pbs3.py:26-33 | the stdout part of the message is cut as written: the placeholder when redirected, the stream itself when short, and longer than 200 bytes exactly when the stream is |
| ExitStatus.ErrorReturnCode.StderrPreview | pbs3.py:34-42 | the same for stderr |
| ExitStatus.ErrorReturnCode.Message | pbs3.py:43-45 | a redirect placeholder that does not format makes the message fail first (`TypeError`); otherwise the message is built exactly when both previews decode, and then holds the command and exactly the preview bytes, and else the first preview that does not decode is what fails |
| ExitStatus.MessageBytes | pbs3.py:44-45 | a message holding decoded previews encodes to the previews' own bytes |
| ExitStatus.SplitCharacterMessageFails | pbs3.py:30-45 | as written, the message of a failing command whose stdout is 199 letters `a` and `é` cannot be built |
| ExitStatus.InvalidOutputMessageFails | pbs3.py:44-45 | stdout `b"\xff"` makes the message fail on that preview |
| ExitStatus.ShortStreamsGiveMessage | pbs3.py:44-45 | streams of at most 200 bytes that are encoded text give a message |
| ExitStatus.ErrorClass.constructor | pbs3.py:58-59 | a new class carries its status and the name `ErrorReturnCode_<status>` |
| ExitStatus.RedirectedNoteExamples | pbs3.py:27 | `_out="log"` and `_out=("log",)` both show `<redirected to 'log'>`; a tuple of two or of no elements does not format, and a list does |
| ExitStatus.ErrorRegistry.constructor | pbs3.py:50 | the cache starts empty |
| ExitStatus.ErrorRegistry.GetRcExc | pbs3.py:52-61 | returns the cached class for the status, or makes, caches and returns a new one; the cache gains at most that entry, keeps every other one, and every cached class belongs to its own status |
| ExitStatus.LookupsKeepClasses | pbs3.py:52-61 | along any run of lookups, a class cached for a status stays the class of that status, so `get_rc_exc(99) is get_rc_exc(99)` (tests/test_runps.py:481-485) |
| ExitStatus.DistinctCodesDistinctClasses | pbs3.py:52-61 | two cached statuses share a class exactly when they are the same status |
| ExitStatus.ClassNameInjective | pbs3.py:58 | distinct statuses give distinct class names |
| ExitStatus.ClassNameExample | tests/test_runps.py:475-479 | status 42 gives the class name `ErrorReturnCode_42` |
| CommandLine.ConcatAppend | pbs3.py:310 | the prefix of two groups of stack entries is the two prefixes, one after the other |
| CommandLine.BakedCallSameArgv | pbs3.py:344-347 | calling a command baked with positional arguments runs what calling the unbaked one with both argument lists runs |
| CommandLine.PrefixComesFirst | pbs3.py:310-312 | the innermost prefix sits in the argument vector right after the outer ones |
| CommandLine.WithEntryAsWrittenRepeatsPrefix | pbs3.py:352-353 | as written, a nested `_with` context puts every enclosing prefix into the vector twice |
| CommandLine.NestedWithAsWritten | pbs3.py:352-353 | as written, `ls()` inside `sudo(_with=True)` and `nice(_with=True)` runs `sudo sudo nice ls` |
| CommandLine.NestedWithPrefixOnce | pbs3.py:352-353 | when only the call's own tokens are pushed, every enclosing prefix appears once |
| CommandLine.NestedWithCorrected | pbs3.py:352-353 | with the corrected push, the same nesting runs `sudo nice ls` |
| CommandLine.TextForm | pbs3.py:289-292 | `str(cmd)` starts with the path and is the path alone when nothing is baked |
| CommandLine.SplitJoin | pbs3.py:290 | splitting a space-joined list of tokens without spaces gives the tokens back |
| CommandLine.JoinNotEmpty | pbs3.py:290-291 | the join is not empty when its last token is not |
| CommandLine.TextFormSplits | pbs3.py:289-292 | splitting `str(cmd)` on spaces gives back the path and the baked tokens, when none of them is empty or holds a space |
| CommandLine.TextFormEqualIff | pbs3.py:294-296 | two such commands compare equal exactly when they have the same path and the same baked tokens |
| CommandLine.BakeExtendsTextForm | pbs3.py:278-292 | baking more tokens onto a command whose baked text is not empty appends a space and their join to `str(cmd)` |
| Commands.PrependStack.constructor | pbs3.py:185 | the stack starts empty |
| Commands.PrependStack.Push | pbs3.py:353 | a push appends one entry, and the prefix grows by that entry's tokens |
| Commands.PrependStack.Pop | pbs3.py:302 | a pop removes and returns the last entry, and the prefix loses exactly its tokens; an empty stack raises `IndexError` and stays empty |
| Commands.Captured | pbs3.py:323 | `communicate` returns a stream's bytes exactly when the stream is a pipe |
| Commands.Process.constructor | pbs3.py:379-380 | the child gets the argument vector, `env`, `cwd`, stdin source and pipes it is given, and has not finished |
| Commands.Process.Communicate | pbs3.py:110 | `communicate` records the input, returns the piped streams, and reaps the child |
| Commands.Process.Wait | pbs3.py:111 | `wait` returns the reaped child's status |
| Commands.InputBytes | pbs3.py:109 | a false value (by Python truthiness, objects included) gives no input; a true string, or a `RunningCommand` whose output is not empty, is encoded to the non-empty bytes of its `str`; any other true value has no `encode` and raises `AttributeError` |
| Commands.FalsyObjectInput | pbs3.py:356-358 | `_in=b""` (any false object) leaves the piped input, or none, in place, and the child is fed what it would have been fed without `_in` |
| Commands.RunningCommandInput | pbs3.py:144-149 | a `RunningCommand` passed as `_in` is true when its output is not empty, and its `encode` (reached through `__getattr__`) feeds that output to the child |
| Commands.RunningCommand.constructor | pbs3.py:92-98 | a new result holds the command text, the process and the options, and no output yet |
| Commands.Raised | pbs3.py:178 | raising the exception gives `TypeError` exactly when a redirect placeholder does not format (pbs3.py:27, 36); otherwise the `ErrorReturnCode` exactly when both previews decode, and else a `UnicodeDecodeError` over a preview that does not decode (pbs3.py:45) |
| Commands.TupleTargetRaisesTypeError | pbs3.py:26-27 | a failing command whose stdout went to `_out=("a", "b")` raises `TypeError` |
| Commands.SplitCharacterRaisesDecodeError | pbs3.py:30-45 | a failing command whose stdout is 199 letters `a` and `é` raises `UnicodeDecodeError` |
| Commands.StoredStream | pbs3.py:163 | reading a stored stream gives its bytes, or `AttributeError` when it is `None` |
| Commands.RunningCommand.Start | pbs3.py:92-111 | a background or `with` result returns at once; otherwise the input is encoded, the child is reaped, its piped streams are kept, and the result stands exactly when its status is accepted, else what raising the status's `ErrorReturnCode` with both streams gives; the registry keeps every class it held, a class already cached for the status included |
| Commands.RunningCommand.HandleExitCode | pbs3.py:176-178 | nothing is raised exactly when the status is accepted; otherwise the status's class is fetched or made in the registry, then the exception is raised with the command text, both streams and the options, or `TypeError` or `UnicodeDecodeError` when its message cannot be built; the registry keeps every class it held, a class already cached for the status included |
| Commands.RunningCommand.Wait | pbs3.py:170-174 | a reaped child returns at once; otherwise the streams are collected, and the output is returned exactly when the status is accepted, else what raising the status's exception gives; the registry keeps every class it held, a class already cached for the status included |
| Commands.RunningCommand.Stdout | pbs3.py:160-163 | a foreground result returns its stored stdout and changes nothing; in the background an unfinished child is reaped with no input, both streams are stored, and the stdout is returned when the status is accepted, else the status's exception, with the registry keeping every class it held; a reaped child changes nothing; `None` raises `AttributeError` |
| Commands.RunningCommand.Stderr | pbs3.py:165-168 | the same for stderr |
| Commands.RunningCommand.Exit | pbs3.py:120-122 | leaving a `_with` result's context pops one entry when the stack is not empty; otherwise nothing changes |
| Commands.RunOptions | pbs3.py:314-335 | the run options give every option a value, `ok_code` is a list, and reading from a background command forces the background |
| Commands.Command.constructor | pbs3.py:208-214 | a new command has its path and nothing baked |
| Commands.Command.Create | pbs3.py:202-206 | `create` returns a fresh command at the resolved path, or raises `CommandNotFound` exactly when resolution fails |
| Commands.Command.AsString | pbs3.py:282-292 | `str(cmd)` starts with the path, is the path alone when nothing is baked, and the path, a space and the joined baked tokens when that join is not empty |
| Commands.Command.Equals | pbs3.py:294-296 | a command equals only a text that starts with its path, and an unbaked one exactly its path |
| Commands.CommandsEqualIff | pbs3.py:294-296 | two commands with plain tokens are `==` exactly when they have the same path and the same baked tokens |
| Commands.Command.Bake | pbs3.py:266-280 | `bake` returns a new partial command with the same path, the baked tokens followed by the newly compiled ones, and the baked options overlaid with the non-default new ones |
| Commands.Command.Attribute | pbs3.py:216-221 | a name starting with `_`, or `bake`, is looked up as an attribute; any other name gives a new command with that name baked in as one more token and the options unchanged |
| Commands.Command.Enter | pbs3.py:298-299 | `with cmd:` pushes the path alone |
| Commands.Command.Exit | pbs3.py:301-302 | leaving `with cmd:` pops the last entry; an empty stack raises `IndexError` |
| Commands.Command.PrefixTokens | pbs3.py:307-310 | the prefix is the tokens of every stack entry, in order |
| Commands.Command.OptionsForCall | pbs3.py:314-320 | the call's options are the extracted ones updated with the baked ones, `ok_code` made a list, and the rest are the unreserved arguments |
| Commands.Command.StdinOf | pbs3.py:322-336 | a background command piped in gives its stdout pipe exactly when its stdout is a pipe, and an inherited stdin otherwise (`process.stdout` is `None`); without one, stdin is inherited in the foreground and a new pipe otherwise |
| Commands.Command.Connect | pbs3.py:322-339 | reading from a background command forces the background and takes its stdout pipe, or inherits stdin when that command's stdout is redirected or in the foreground; a finished command's stdout becomes the input; a command that cannot be read from raises `AttributeError` |
| Commands.Command.Prepare | pbs3.py:314-339 | the options, the stdin source (a background command's stdout pipe when it has one, else inherited) and the pending input of the call, or `AttributeError` exactly when the piped command cannot be read from |
| Commands.Command.OwnArgv | pbs3.py:312-347 | the call's own tokens: the path, the baked tokens, then the compiled arguments |
| Commands.Command.EnterWith | pbs3.py:352-354 | a `_with` call pushes its whole token vector and returns a result with no process |
| Commands.Command.Launch | pbs3.py:348-382 | pushes the whole vector for `_with`; otherwise starts the child with the full vector, `env`, `cwd`, stdin and pipes as the options say; returns at once in the background; else succeeds exactly when the status is accepted, and otherwise raises the status's exception, `TypeError` or `UnicodeDecodeError`. The registry is untouched unless the status is rejected, and then keeps every class it held, a class already cached for the status included |
| Commands.Command.Call | pbs3.py:304-382 | `cmd(...)` runs the prefixes, the path, the baked tokens and the compiled arguments. A `_with` call pushes that whole vector, enclosing prefixes included. Stdin is a background command's stdout pipe when it has one, inherited otherwise. The result stands exactly when the status is accepted, and otherwise is what raising the status's exception gives, the registry keeping every class it held; an accepted status leaves the registry untouched; a bad input raises `AttributeError` and leaves it untouched too; a background call returns at once |

## Left out

- Running processes is left out: `subprocess.Popen`, pipes, signals, and `send_signal`, `terminate` and `kill`. The child's behaviour is the `ChildRun` parameter of `Commands.Command.Call`.
- Redirection is left out: opening the files named by `_out` and `_err`, and writing to stream objects. The model records only that the stream is not piped.
- The file-system and `PATH` search inside `which` is not modelled. It is the `Which` parameter of `Resolution.ResolveProgram`.
- `glob`, `Environment`, `SelfWrapper` and the module-import hooks are not part of this model.
- `__int__`, `__float__` and `__long__` are left out, as are `__contains__` and `__repr__`. They convert or inspect the output text, not the command layer. `__len__` is modelled only as a `RunningCommand`'s truthiness (`PyValues.Truthy`).
- `Commands.InputBytes`: a `RunningCommand` given as `_in` is taken as one whose child has run. For a background one, `str` would first wait for the child, and that wait is not modelled.
- `warnings.warn` is not called. `ArgCompiler.CompileArgs` returns the positions it would warn about.
- `Commands.RunningCommand.Stdout`: `.decode("utf8", "replace")` is treated as the identity on bytes. Invalid UTF-8 in the output is not replaced.
- `Commands.RunningCommand.Stderr`: the same `.decode("utf8", "replace")` is treated as the identity on bytes.
- `PyValues.Repr`: characters above U+00FF are taken to be printable. Python escapes the ones its Unicode database calls non-printable as `\x`, `\u` or `\U`.
- `PyValues.Repr`: the `__str__` and `__repr__` text of any other object is part of the value. Floats, dicts and sets are such objects.
- `Commands.CallError`: a `UnicodeDecodeError` holds only the preview that failed, not the position or reason Python reports, and a `TypeError` holds no message.
- `Commands.Command.Connect`: `first_arg.stdout` is decoded and later encoded again. The model passes the bytes through unchanged.
- `Commands.RunningCommand.Wait`: returns the captured stdout bytes, where the source returns `str(self)`, their decoded text.
- `Commands.Command.Call`: states the streams kept in the foreground case only through `Commands.Command.Launch`, whose contract it relies on.
- `ExitStatus.PreviewRecordsLength`: stated for the as-written preview only, where the note always starts at byte 200.
- Python `==` is modelled for strings, integers, booleans, `None`, lists and tuples. Any other object is compared by identity, and floats are not modelled. A `RunningCommand` used as a value is compared by identity too, where its `__eq__` (pbs3.py:138-139) compares output texts.
- The `_bg=True` together with `_in=...` case is modelled as written: the input is never written, because a background result returns before `communicate`.
- Python 2 branches (`unicode`, `long`, `encode("utf-8")` for `str`) are left out; only the Python 3 paths are modelled.

## Findings

| source | as written | input that shows it | evidently intended | confidence | as-written member | corrected member |
|---|---|---|---|---|---|---|
| pbs3.py:352-353 | a `_with=True` call pushes its whole assembled `cmd`, which already starts with the enclosing prefixes | `with sudo(_with=True): with nice(_with=True): ls()` runs `sudo sudo nice ls` | each context prefixes its own tokens once: `sudo nice ls` | not executed | CommandLine.NestedWithAsWritten | CommandLine.NestedWithCorrected |
| pbs3.py:30-45 | each stream is cut at 200 bytes and the preview is then decoded strictly, so a cut inside a multi-byte character makes `ErrorReturnCode` raise `UnicodeDecodeError` | a command that fails with stdout of 199 bytes `a` followed by `é` (`C3 A9`) | the cut falls on a character boundary, so the message decodes whenever the streams do | not executed | ExitStatus.TruncationSplitsCharacter | ExitStatus.PreviewDecodes |

The operations model both defects as written. `Commands.Command.Call` pushes
the whole vector (`CommandLine.WithEntryAsWritten`), and a failing call raises
`UnicodeDecodeError` when a preview fails to decode
(`Commands.SplitCharacterRaisesDecodeError`). The corrected push
(`CommandLine.NestedWithPrefixOnce`) and the corrected preview
(`ExitStatus.Preview`) are separate definitions, each with its intended
property proved.
