/**
 * The per-invocation options of pbs3 (`Command.call_args`): the table of
 * defaults, their extraction from keyword arguments by the reserved `_name`
 * convention (`Command._extract_call_args`), the pruning of default values
 * when options are baked (`Command.bake`), the overlay used by a call, and
 * the exit-status test against `ok_code`.
 */
module CallOptions {
  import opened Wrappers
  import opened PyValues
  import opened ArgCompiler

  /** The options of the defaults table, `Command.call_args`. */
  datatype OptionName = Fg | Bg | With | Out | Err | ErrToOut | In | Env | Cwd | OkCode

  type Options = map<OptionName, Value>

  /** The option names, in the order of the defaults table. */
  const OptionNames: seq<OptionName> := [Fg, Bg, With, Out, Err, ErrToOut, In, Env, Cwd, OkCode]

  /** The table lists every option. */
  lemma AllOptionsListed()
    ensures forall o: OptionName :: o in OptionNames
  {
    forall o: OptionName
      ensures o in OptionNames
    {
      match o
      case Fg => assert OptionNames[0] == o;
      case Bg => assert OptionNames[1] == o;
      case With => assert OptionNames[2] == o;
      case Out => assert OptionNames[3] == o;
      case Err => assert OptionNames[4] == o;
      case ErrToOut => assert OptionNames[5] == o;
      case In => assert OptionNames[6] == o;
      case Env => assert OptionNames[7] == o;
      case Cwd => assert OptionNames[8] == o;
      case OkCode => assert OptionNames[9] == o;
    }
  }

  /** The position of each option in the table. */
  function Position(o: OptionName): (k: nat)
    ensures k < |OptionNames| && OptionNames[k] == o
  {
    match o
    case Fg => 0
    case Bg => 1
    case With => 2
    case Out => 3
    case Err => 4
    case ErrToOut => 5
    case In => 6
    case Env => 7
    case Cwd => 8
    case OkCode => 9
  }

  /** The table lists each option once. */
  lemma ListedOnce(i: nat)
    requires i < |OptionNames|
    ensures Position(OptionNames[i]) == i
    ensures OptionNames[i] !in OptionNames[..i]
  {
  }

  /** The options before position `i + 1` are those before `i` and option `i`. */
  lemma PositionStep(i: nat)
    requires i < |OptionNames|
    ensures forall o :: Position(o) < i + 1 <==> Position(o) < i || o == OptionNames[i]
  {
    ListedOnce(i);
  }

  /** The dictionary key of each option. */
  function Name(o: OptionName): string {
    match o
    case Fg => "fg"
    case Bg => "bg"
    case With => "with"
    case Out => "out"
    case Err => "err"
    case ErrToOut => "err_to_out"
    case In => "in"
    case Env => "env"
    case Cwd => "cwd"
    case OkCode => "ok_code"
  }

  /** The option a dictionary key names, if any. */
  function OptionNamed(s: string): (r: Option<OptionName>)
    ensures r.Some? ==> Name(r.value) == s
  {
    if s == "fg" then Some(Fg)
    else if s == "bg" then Some(Bg)
    else if s == "with" then Some(With)
    else if s == "out" then Some(Out)
    else if s == "err" then Some(Err)
    else if s == "err_to_out" then Some(ErrToOut)
    else if s == "in" then Some(In)
    else if s == "env" then Some(Env)
    else if s == "cwd" then Some(Cwd)
    else if s == "ok_code" then Some(OkCode)
    else None
  }

  lemma OptionNamedName(o: OptionName)
    ensures OptionNamed(Name(o)) == Some(o)
  {
  }

  /** The default of each option. */
  function Default(o: OptionName): Value {
    match o
    case Fg | Bg | With => Bool(false)
    case Env => ProcessEnvironment
    case OkCode => Int(0)
    case _ => NoneValue
  }

  /** `Command.call_args`, the defaults table. */
  function Defaults(): (opts: Options)
    ensures Complete(opts)
  {
    AllOptionsListed();
    map o: OptionName | o in OptionNames :: Default(o)
  }

  /** Every option has a value. */
  predicate Complete(opts: Options) {
    forall o: OptionName :: o in opts
  }

  /** The reserved key `_name` of an option. */
  function ReservedKey(o: OptionName): string {
    "_" + Name(o)
  }

  /** The option a keyword names by the reserved `_name` convention, if any. */
  function ReservedOption(key: string): (r: Option<OptionName>)
    ensures r.Some? ==> key == ReservedKey(r.value)
  {
    if |key| > 0 && key[0] == '_' then
      var r := OptionNamed(key[1..]);
      if r.Some? then
        assert key == [key[0]] + key[1..];
        r
      else None
    else None
  }

  lemma ReservedOptionOfKey(o: OptionName)
    ensures ReservedOption(ReservedKey(o)) == Some(o)
  {
    assert ReservedKey(o)[1..] == Name(o);
    OptionNamedName(o);
  }

  predicate IsReserved(key: string) {
    ReservedOption(key).Some?
  }

  /** The value of the first keyword argument with this key. */
  function Find(kwargs: Kwargs, key: string): Option<Value> {
    if kwargs == [] then None
    else if kwargs[0].0 == key then Some(kwargs[0].1)
    else Find(kwargs[1..], key)
  }

  /** `del kwargs[key]` */
  function RemoveKey(kwargs: Kwargs, key: string): Kwargs {
    if kwargs == [] then []
    else (if kwargs[0].0 == key then [] else [kwargs[0]]) + RemoveKey(kwargs[1..], key)
  }

  /** Deleting a key that is not there changes nothing. */
  lemma {:induction false} RemoveAbsentKey(kwargs: Kwargs, key: string)
    requires Find(kwargs, key).None?
    ensures RemoveKey(kwargs, key) == kwargs
  {
    if kwargs != [] {
      RemoveAbsentKey(kwargs[1..], key);
      assert kwargs == [kwargs[0]] + kwargs[1..];
    }
  }

  /** Is `key` the reserved key `_name` of one of `names`? */
  predicate ReservedAmong(key: string, names: seq<OptionName>) {
    ReservedOption(key).Some? && ReservedOption(key).value in names
  }

  /** The keyword arguments without the reserved keys of `names`. */
  function Without(kwargs: Kwargs, names: seq<OptionName>): Kwargs {
    if kwargs == [] then []
    else (if ReservedAmong(kwargs[0].0, names) then [] else [kwargs[0]]) + Without(kwargs[1..], names)
  }

  /** The keyword arguments that are not options: the ones passed on to the argument compiler. */
  function Unreserved(kwargs: Kwargs): Kwargs {
    Without(kwargs, OptionNames)
  }

  /** The option a call asks for: the value under `_name` if given, the default otherwise. */
  function Chosen(kwargs: Kwargs, o: OptionName): Value {
    match Find(kwargs, ReservedKey(o))
    case Some(v) => v
    case None => Default(o)
  }

  /** The options `_extract_call_args` returns. */
  function ExtractedOptions(kwargs: Kwargs): (opts: Options)
    ensures Complete(opts)
  {
    AllOptionsListed();
    map o: OptionName | o in OptionNames :: Chosen(kwargs, o)
  }

  /** A key is the reserved key of `o` exactly when it names `o` by the `_name` convention. */
  lemma KeyOfOption(key: string, o: OptionName)
    ensures key == ReservedKey(o) <==> ReservedOption(key) == Some(o)
  {
    ReservedOptionOfKey(o);
  }

  /** Removing one more reserved key from what is left is removing all of them at once. */
  lemma {:induction false} RemoveKeyWithout(kwargs: Kwargs, names: seq<OptionName>, o: OptionName)
    ensures RemoveKey(Without(kwargs, names), ReservedKey(o)) == Without(kwargs, names + [o])
  {
    if kwargs != [] {
      var key := kwargs[0].0;
      KeyOfOption(key, o);
      RemoveKeyWithout(kwargs[1..], names, o);
      var w := Without(kwargs, names);
      var rest := Without(kwargs[1..], names);
      if ReservedAmong(key, names) {
        assert ReservedAmong(key, names + [o]);
        assert w == rest;
      } else {
        assert ReservedAmong(key, names + [o]) <==> key == ReservedKey(o);
        assert w == [kwargs[0]] + rest;
        assert w[0] == kwargs[0] && w[1..] == rest;
      }
    }
  }

  /** A reserved key not yet removed is looked up as in the original arguments. */
  lemma {:induction false} FindWithout(kwargs: Kwargs, names: seq<OptionName>, o: OptionName)
    ensures Find(Without(kwargs, names), ReservedKey(o)) == if o in names then None else Find(kwargs, ReservedKey(o))
  {
    if kwargs != [] {
      var key := kwargs[0].0;
      KeyOfOption(key, o);
      FindWithout(kwargs[1..], names, o);
      var w := Without(kwargs, names);
      var rest := Without(kwargs[1..], names);
      if ReservedAmong(key, names) {
        assert w == rest;
      } else {
        assert w == [kwargs[0]] + rest;
        assert w[0] == kwargs[0] && w[1..] == rest;
      }
    }
  }

  /** The options once the first `i` options of the table have been looked up. */
  function Partial(kwargs: Kwargs, i: nat): (opts: Options)
    ensures Complete(opts)
  {
    AllOptionsListed();
    map o: OptionName | o in OptionNames :: if Position(o) < i then Chosen(kwargs, o) else Default(o)
  }

  /** Before any lookup the options are the defaults; after all of them, the extracted options. */
  lemma PartialEnds(kwargs: Kwargs)
    ensures Partial(kwargs, 0) == Defaults()
    ensures Partial(kwargs, |OptionNames|) == ExtractedOptions(kwargs)
  {
  }

  /** Looking up option `i` adds its chosen value, if one was passed. */
  lemma PartialStep(kwargs: Kwargs, i: nat)
    requires i < |OptionNames|
    ensures var o := OptionNames[i];
      Partial(kwargs, i + 1) ==
        if Find(kwargs, ReservedKey(o)).Some? then Partial(kwargs, i)[o := Find(kwargs, ReservedKey(o)).value]
        else Partial(kwargs, i)
  {
    PositionStep(i);
    ListedOnce(i);
  }

  /**
   * One step of `_extract_call_args` on the arguments: the key of the next
   * option is looked up in what is left as in the original arguments, and
   * deleting it leaves the arguments without one more reserved key.
   */
  lemma ExtractStep(kwargs: Kwargs, i: nat)
    requires i < |OptionNames|
    ensures var o := OptionNames[i];
      Find(Without(kwargs, OptionNames[..i]), ReservedKey(o)) == Find(kwargs, ReservedKey(o))
    ensures var o := OptionNames[i];
      RemoveKey(Without(kwargs, OptionNames[..i]), ReservedKey(o)) == Without(kwargs, OptionNames[..i + 1])
  {
    var o := OptionNames[i];
    ListedOnce(i);
    assert OptionNames[..i + 1] == OptionNames[..i] + [o];
    FindWithout(kwargs, OptionNames[..i], o);
    RemoveKeyWithout(kwargs, OptionNames[..i], o);
  }

  /** Where the loop of `_extract_call_args` starts and where it ends. */
  lemma ExtractEnds(kwargs: Kwargs)
    ensures Without(kwargs, OptionNames[..0]) == kwargs && Partial(kwargs, 0) == Defaults()
    ensures Without(kwargs, OptionNames[..|OptionNames|]) == Unreserved(kwargs)
    ensures Partial(kwargs, |OptionNames|) == ExtractedOptions(kwargs)
  {
    WithoutNothing(kwargs);
    PartialEnds(kwargs);
    assert OptionNames[..|OptionNames|] == OptionNames;
  }

  /** One iteration of `_extract_call_args`: moves the `_name` argument of option `i`, if passed, into the options. */
  method ExtractOne(kwargs: Kwargs, i: nat, callArgs: Options, rest: Kwargs) returns (callArgs': Options, rest': Kwargs)
    requires i < |OptionNames|
    requires rest == Without(kwargs, OptionNames[..i])
    requires callArgs == Partial(kwargs, i)
    ensures rest' == Without(kwargs, OptionNames[..i + 1])
    ensures callArgs' == Partial(kwargs, i + 1)
  {
    var o := OptionNames[i];
    var key := ReservedKey(o);
    ExtractStep(kwargs, i);
    PartialStep(kwargs, i);
    var found := Find(rest, key);
    if found.Some? {
      callArgs' := callArgs[o := found.value];
      rest' := RemoveKey(rest, key);
    } else {
      RemoveAbsentKey(rest, key);
      callArgs', rest' := callArgs, rest;
    }
  }

  /**
   * `Command._extract_call_args`: starts from a copy of the defaults and a copy
   * of the keyword arguments, and for each option, in table order, moves a
   * `_name` argument into the options.
   */
  method ExtractCallArgs(kwargs: Kwargs) returns (callArgs: Options, rest: Kwargs)
    ensures callArgs == ExtractedOptions(kwargs)
    ensures rest == Unreserved(kwargs)
  {
    rest := kwargs;
    callArgs := Defaults();
    var i := 0;
    ExtractEnds(kwargs);
    while i < |OptionNames|
      invariant 0 <= i <= |OptionNames|
      invariant rest == Without(kwargs, OptionNames[..i])
      invariant callArgs == Partial(kwargs, i)
    {
      callArgs, rest := ExtractOne(kwargs, i, callArgs, rest);
      i := i + 1;
    }
  }

  lemma {:induction false} WithoutNothing(kwargs: Kwargs)
    ensures Without(kwargs, []) == kwargs
  {
    if kwargs != [] {
      WithoutNothing(kwargs[1..]);
    }
  }

  /**
   * The keyword arguments passed on are exactly those whose key is not
   * reserved: no reserved key reaches the argument compiler, and every other
   * argument does.
   */
  lemma {:induction false} UnreservedMembers(kwargs: Kwargs, names: seq<OptionName>, p: (string, Value))
    ensures p in Without(kwargs, names) <==> p in kwargs && !ReservedAmong(p.0, names)
  {
    if kwargs != [] {
      UnreservedMembers(kwargs[1..], names, p);
      assert kwargs == [kwargs[0]] + kwargs[1..];
    }
  }

  /** Keyword arguments with no reserved key pass through unchanged and in order. */
  lemma {:induction false} NoOptionsPassThrough(kwargs: Kwargs)
    requires forall k :: 0 <= k < |kwargs| ==> !IsReserved(kwargs[k].0)
    ensures Unreserved(kwargs) == kwargs
  {
    if kwargs != [] {
      NoOptionsPassThrough(kwargs[1..]);
      assert kwargs == [kwargs[0]] + kwargs[1..];
    }
  }

  /** With no reserved key among the arguments, every option is looked up in vain. */
  lemma {:induction false} NotFoundUnlessPresent(kwargs: Kwargs, o: OptionName)
    requires forall k :: 0 <= k < |kwargs| ==> !IsReserved(kwargs[k].0)
    ensures Find(kwargs, ReservedKey(o)).None?
  {
    if kwargs != [] {
      KeyOfOption(kwargs[0].0, o);
      NotFoundUnlessPresent(kwargs[1..], o);
    }
  }

  // ---------------------------------------------------------------------------
  // Baking options

  /** Is the value of `o` in `opts` equal (Python `==`) to its default? */
  predicate IsDefault(opts: Options, o: OptionName)
    requires o in opts
  {
    PyEq(opts[o], Default(o))
  }

  /** The options left once those equal to their default are deleted. */
  function Pruned(opts: Options): Options {
    map o | o in opts && !IsDefault(opts, o) :: opts[o]
  }

  /** The options left once the first `i` options of the table have been pruned. */
  function PrunedUpTo(opts: Options, i: nat): Options {
    map o | o in opts && !(Position(o) < i && IsDefault(opts, o)) :: opts[o]
  }

  /** Pruning nothing keeps every option; pruning the whole table is `Pruned`. */
  lemma PrunedUpToEnds(opts: Options)
    ensures PrunedUpTo(opts, 0) == opts
    ensures PrunedUpTo(opts, |OptionNames|) == Pruned(opts)
  {
  }

  /** Option `i` is still there, unchanged, when its turn comes. */
  lemma PruneReaches(opts: Options, i: nat)
    requires i < |OptionNames|
    ensures var o := OptionNames[i];
      (o in PrunedUpTo(opts, i) <==> o in opts) &&
      (o in opts ==> PrunedUpTo(opts, i)[o] == opts[o])
  {
    ListedOnce(i);
  }

  /** Pruning option `i` deletes it exactly when it is present at its default. */
  lemma PruneStep(opts: Options, i: nat)
    requires i < |OptionNames|
    ensures var o := OptionNames[i];
      PrunedUpTo(opts, i + 1) ==
        if o in opts && IsDefault(opts, o) then PrunedUpTo(opts, i) - {o} else PrunedUpTo(opts, i)
  {
    var o := OptionNames[i];
    var before, after := PrunedUpTo(opts, i), PrunedUpTo(opts, i + 1);
    PositionStep(i);
    if o in opts && IsDefault(opts, o) {
      assert after.Keys == before.Keys - {o};
    } else {
      assert after.Keys == before.Keys;
    }
  }

  /**
   * The pruning loop of `Command.bake`: for each option of the defaults
   * table, in order, delete it if its value equals the default (a missing
   * option is skipped, as the `KeyError` handler does).
   */
  method PruneDefaults(callArgs: Options) returns (pruned: Options)
    ensures pruned == Pruned(callArgs)
  {
    pruned := callArgs;
    var i := 0;
    PrunedUpToEnds(callArgs);
    while i < |OptionNames|
      invariant 0 <= i <= |OptionNames|
      invariant pruned == PrunedUpTo(callArgs, i)
    {
      var o := OptionNames[i];
      PruneReaches(callArgs, i);
      PruneStep(callArgs, i);
      if o in pruned && PyEq(pruned[o], Default(o)) {
        pruned := pruned - {o};
      }
      i := i + 1;
    }
  }

  /** The baked options of `self.bake(**kwargs)`: the receiver's, overlaid with the non-default new ones. */
  function BakedOptions(previous: Options, kwargs: Kwargs): Options {
    previous + Pruned(ExtractedOptions(kwargs))
  }

  /** An option passed at its default value, or not passed, never overrides a previously baked one. */
  lemma DefaultNeverOverrides(previous: Options, kwargs: Kwargs, o: OptionName)
    requires Find(kwargs, ReservedKey(o)).None? || PyEq(Find(kwargs, ReservedKey(o)).value, Default(o))
    ensures o in BakedOptions(previous, kwargs) <==> o in previous
    ensures o in previous ==> BakedOptions(previous, kwargs)[o] == previous[o]
  {
    if Find(kwargs, ReservedKey(o)).None? {
      PyEqReflexive(Default(o));
    }
  }

  /** An option passed with a value other than its default overlays the previously baked one. */
  lemma NonDefaultOverlays(previous: Options, kwargs: Kwargs, o: OptionName, v: Value)
    requires Find(kwargs, ReservedKey(o)) == Some(v) && !PyEq(v, Default(o))
    ensures o in BakedOptions(previous, kwargs)
    ensures BakedOptions(previous, kwargs)[o] == v
  {
    var extracted := ExtractedOptions(kwargs);
    assert extracted[o] == v;
    assert o in Pruned(extracted);
  }

  /** Baking with no options leaves the baked options as they were. */
  lemma BakeWithoutOptions(previous: Options, kwargs: Kwargs)
    requires forall k :: 0 <= k < |kwargs| ==> !IsReserved(kwargs[k].0)
    ensures BakedOptions(previous, kwargs) == previous
  {
    var extracted := ExtractedOptions(kwargs);
    forall o | o in extracted
      ensures IsDefault(extracted, o)
    {
      NotFoundUnlessPresent(kwargs, o);
      PyEqReflexive(Default(o));
    }
    assert Pruned(extracted) == map[];
  }

  // ---------------------------------------------------------------------------
  // Options of a call

  /** `ok_code` made a list: a value that is not a list or tuple becomes a one-element list. */
  function NormaliseOkCode(opts: Options): (r: Options)
    requires OkCode in opts
    ensures r.Keys == opts.Keys && r[OkCode].Items?
    ensures forall o :: o in opts && o != OkCode ==> r[o] == opts[o]
    ensures opts[OkCode].Items? ==> r == opts
    ensures !opts[OkCode].Items? ==> r[OkCode] == Items([opts[OkCode]], List)
  {
    var ok := opts[OkCode];
    if ok.Items? then opts else opts[OkCode := Items([ok], List)]
  }

  /**
   * The options `Command.__call__` runs with: the extracted per-call options,
   * updated with the baked ones (so a baked option wins), `ok_code` normalised.
   */
  function CallOptionsFor(kwargs: Kwargs, baked: Options): (opts: Options)
    ensures Complete(opts) && opts[OkCode].Items?
  {
    NormaliseOkCode(ExtractedOptions(kwargs) + baked)
  }

  /** Is `status` among the accepted exit codes (Python `status in ok_code`)? */
  predicate Accepts(status: int, opts: Options)
    requires OkCode in opts && opts[OkCode].Items?
  {
    exists k :: 0 <= k < |opts[OkCode].elems| && PyEq(Int(status), opts[OkCode].elems[k])
  }

  /** A baked option overrides the same option given at call time; a baked `ok_code` is then made a list. */
  lemma BakedOptionWins(kwargs: Kwargs, baked: Options, o: OptionName)
    requires o in baked
    ensures o != OkCode ==> CallOptionsFor(kwargs, baked)[o] == baked[o]
    ensures o == OkCode ==>
      CallOptionsFor(kwargs, baked)[o] == if baked[o].Items? then baked[o] else Items([baked[o]], List)
  {
  }

  /** The `ok_code` a call runs with when none is baked. */
  lemma OkCodeOfCall(kwargs: Kwargs, baked: Options)
    requires OkCode !in baked
    ensures var v := Chosen(kwargs, OkCode);
      CallOptionsFor(kwargs, baked)[OkCode] == if v.Items? then v else Items([v], List)
  {
    var merged := ExtractedOptions(kwargs) + baked;
    assert merged[OkCode] == Chosen(kwargs, OkCode);
  }

  /** Without `_ok_code` anywhere, only exit status 0 is accepted. */
  lemma DefaultAcceptsOnlyZero(status: int, kwargs: Kwargs, baked: Options)
    requires Find(kwargs, ReservedKey(OkCode)).None? && OkCode !in baked
    ensures Accepts(status, CallOptionsFor(kwargs, baked)) <==> status == 0
  {
    OkCodeOfCall(kwargs, baked);
    var opts := CallOptionsFor(kwargs, baked);
    assert opts[OkCode] == Items([Int(0)], List);
    if status == 0 {
      assert PyEq(Int(status), opts[OkCode].elems[0]);
    }
  }

  /** `_ok_code=n` with an int `n` accepts exactly the exit status `n`, unless a baked `ok_code` wins. */
  lemma ScalarOkCodeAcceptsIt(status: int, n: int, kwargs: Kwargs, baked: Options)
    requires Find(kwargs, ReservedKey(OkCode)) == Some(Int(n)) && OkCode !in baked
    ensures Accepts(status, CallOptionsFor(kwargs, baked)) <==> status == n
  {
    OkCodeOfCall(kwargs, baked);
    var opts := CallOptionsFor(kwargs, baked);
    assert opts[OkCode] == Items([Int(n)], List);
    if status == n {
      assert PyEq(Int(status), opts[OkCode].elems[0]);
    }
  }

  /** `_ok_code=[c1, c2, ...]` with ints accepts exactly the listed exit statuses. */
  lemma ListOkCodeAcceptsMembers(status: int, codes: seq<int>, kind: SequenceKind, kwargs: Kwargs, baked: Options)
    requires Find(kwargs, ReservedKey(OkCode)) == Some(Items(seq(|codes|, k requires 0 <= k < |codes| => Int(codes[k])), kind))
    requires OkCode !in baked
    ensures Accepts(status, CallOptionsFor(kwargs, baked)) <==> status in codes
  {
    OkCodeOfCall(kwargs, baked);
    var opts := CallOptionsFor(kwargs, baked);
    var elems := opts[OkCode].elems;
    assert |elems| == |codes|;
    assert forall k :: 0 <= k < |codes| ==> elems[k] == Int(codes[k]);
    if status in codes {
      var k :| 0 <= k < |codes| && codes[k] == status;
      assert PyEq(Int(status), elems[k]);
    } else {
      forall k | 0 <= k < |codes|
        ensures !PyEq(Int(status), elems[k])
      {
        assert elems[k] == Int(codes[k]);
      }
    }
  }
}
