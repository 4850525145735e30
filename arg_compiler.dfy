/**
 * The argument compiler of `Command._compile_args`: positional and keyword
 * arguments become the list of string tokens handed to the process.
 * Keyword arguments are an ordered sequence of (name, value) pairs, the
 * insertion order of the Python dict the compiler iterates over.
 */
module ArgCompiler {
  import opened PyValues

  type Kwargs = seq<(string, Value)>

  /** The tokens one positional argument contributes: a list or tuple is flattened one level. */
  function ArgTokens(arg: Value): (r: seq<string>)
    ensures arg.Items? ==> |r| == |arg.elems| && forall k :: 0 <= k < |r| ==> r[k] == Str(arg.elems[k])
    ensures !arg.Items? ==> r == [Str(arg)]
  {
    if arg.Items? then StrAll(arg.elems) else [Str(arg)]
  }

  function StrAll(xs: seq<Value>): seq<string> {
    seq(|xs|, k requires 0 <= k < |xs| => Str(xs[k]))
  }

  /** The tokens of all positional arguments, in order. */
  function PositionalTokens(args: seq<Value>): seq<string> {
    if args == [] then [] else PositionalTokens(args[..|args| - 1]) + ArgTokens(args[|args| - 1])
  }

  /** The tokens of one keyword argument. */
  function KeywordTokens(key: string, value: Value): seq<string> {
    if |key| == 1 then
      ["-" + key] + (if IsTrue(value) then [] else [Str(value)])
    else if IsTrue(value) then
      ["--" + ReplaceUnderscores(key)]
    else
      ["--" + ReplaceUnderscores(key) + "=" + Str(value)]
  }

  /** The tokens of all keyword arguments, in iteration order. */
  function AllKeywordTokens(kwargs: Kwargs): seq<string> {
    if kwargs == [] then []
    else AllKeywordTokens(kwargs[..|kwargs| - 1]) + KeywordTokens(kwargs[|kwargs| - 1].0, kwargs[|kwargs| - 1].1)
  }

  /** What `_compile_args(args, kwargs)` returns: positional tokens, then keyword tokens. */
  function Compiled(args: seq<Value>, kwargs: Kwargs): seq<string> {
    PositionalTokens(args) + AllKeywordTokens(kwargs)
  }

  /** The positions of the empty lists among the positional arguments: each one draws a warning. */
  function EmptyListPositions(args: seq<Value>): seq<nat> {
    if args == [] then []
    else EmptyListPositions(args[..|args| - 1]) + (if IsEmptySequence(args[|args| - 1]) then [|args| - 1] else [])
  }

  /** `for sub_arg in arg: processed_args.append(str(sub_arg))` */
  method AppendEach(tokens: seq<string>, elems: seq<Value>) returns (r: seq<string>)
    ensures r == tokens + StrAll(elems)
  {
    r := tokens;
    var j := 0;
    while j < |elems|
      invariant 0 <= j <= |elems|
      invariant r == tokens + StrAll(elems[..j])
    {
      assert StrAll(elems[..j + 1]) == StrAll(elems[..j]) + [Str(elems[j])];
      r := r + [Str(elems[j])];
      j := j + 1;
    }
    assert elems[..j] == elems;
  }

  /** The tokens of one keyword argument appended: `-k [v]`, `--key` or `--key=v`. */
  method AppendKeyword(tokens: seq<string>, key: string, value: Value) returns (r: seq<string>)
    ensures r == tokens + KeywordTokens(key, value)
  {
    if |key| == 1 {
      r := tokens + ["-" + key];
      if value != Bool(true) {
        r := r + [Str(value)];
      }
    } else {
      var long := ReplaceUnderscores(key);
      if value == Bool(true) {
        r := tokens + ["--" + long];
      } else {
        r := tokens + ["--" + long + "=" + Str(value)];
      }
    }
  }

  lemma PositionalStep(args: seq<Value>, i: nat)
    requires i < |args|
    ensures PositionalTokens(args[..i + 1]) == PositionalTokens(args[..i]) + ArgTokens(args[i])
    ensures EmptyListPositions(args[..i + 1])
      == EmptyListPositions(args[..i]) + (if IsEmptySequence(args[i]) then [i] else [])
  {
    assert args[..i + 1][..i] == args[..i];
  }

  lemma KeywordStep(kwargs: Kwargs, k: nat)
    requires k < |kwargs|
    ensures AllKeywordTokens(kwargs[..k + 1]) == AllKeywordTokens(kwargs[..k]) + KeywordTokens(kwargs[k].0, kwargs[k].1)
  {
    assert kwargs[..k + 1][..k] == kwargs[..k];
  }

  /** The positional loop of `_compile_args`: the tokens of every argument, and the empty lists found. */
  method CompilePositional(args: seq<Value>) returns (tokens: seq<string>, warnings: seq<nat>)
    ensures tokens == PositionalTokens(args)
    ensures warnings == EmptyListPositions(args)
  {
    tokens, warnings := [], [];
    var i := 0;
    while i < |args|
      invariant 0 <= i <= |args|
      invariant tokens == PositionalTokens(args[..i])
      invariant warnings == EmptyListPositions(args[..i])
    {
      var arg := args[i];
      PositionalStep(args, i);
      if arg.Items? {
        if arg.elems == [] {
          warnings := warnings + [i];
        }
        tokens := AppendEach(tokens, arg.elems);
      } else {
        tokens := tokens + [Str(arg)];
      }
      i := i + 1;
    }
    assert args[..i] == args;
  }

  /** The keyword loop of `_compile_args`: the tokens of every keyword argument, in order, appended. */
  method AppendKeywords(tokens: seq<string>, kwargs: Kwargs) returns (r: seq<string>)
    ensures r == tokens + AllKeywordTokens(kwargs)
  {
    r := tokens;
    var k := 0;
    while k < |kwargs|
      invariant 0 <= k <= |kwargs|
      invariant r == tokens + AllKeywordTokens(kwargs[..k])
    {
      KeywordStep(kwargs, k);
      Associative(tokens, AllKeywordTokens(kwargs[..k]), KeywordTokens(kwargs[k].0, kwargs[k].1));
      r := AppendKeyword(r, kwargs[k].0, kwargs[k].1);
      k := k + 1;
    }
    assert kwargs[..k] == kwargs;
  }

  /**
   * `Command._compile_args`: appends, argument by argument, the tokens of the
   * positional arguments and then those of the keyword arguments. The
   * warnings it would issue are returned as the positions of the empty lists.
   */
  method CompileArgs(args: seq<Value>, kwargs: Kwargs) returns (tokens: seq<string>, warnings: seq<nat>)
    ensures tokens == Compiled(args, kwargs)
    ensures warnings == EmptyListPositions(args)
  {
    tokens, warnings := CompilePositional(args);
    tokens := AppendKeywords(tokens, kwargs);
  }

  // ---------------------------------------------------------------------------
  // Positional arguments

  lemma {:induction false} PositionalTokensAppend(a: seq<Value>, b: seq<Value>)
    ensures PositionalTokens(a + b) == PositionalTokens(a) + PositionalTokens(b)
    decreases |b|
  {
    if b == [] {
      assert a + b == a;
    } else {
      var b' := b[..|b| - 1];
      assert (a + b)[..|a + b| - 1] == a + b';
      assert (a + b)[|a + b| - 1] == b[|b| - 1];
      PositionalTokensAppend(a, b');
      Associative(PositionalTokens(a), PositionalTokens(b'), ArgTokens(b[|b| - 1]));
    }
  }

  /**
   * Positional arguments keep their order: the tokens of argument `i` sit
   * right after those of the arguments before it, and right before those of
   * the arguments after it.
   */
  lemma PositionalOrder(args: seq<Value>, i: nat)
    requires i < |args|
    ensures var before := PositionalTokens(args[..i]);
      PositionalTokens(args) == before + ArgTokens(args[i]) + PositionalTokens(args[i + 1..])
  {
    SplitAt(args, i);
    PositionalTokensAround(args[..i], args[i], args[i + 1..]);
  }

  lemma PositionalTokensAround(front: seq<Value>, x: Value, back: seq<Value>)
    ensures PositionalTokens(front + [x] + back) == PositionalTokens(front) + ArgTokens(x) + PositionalTokens(back)
  {
    var tail := [x] + back;
    Associative(front, [x], back);
    PositionalTokensAppend(front, tail);
    PositionalTokensAppend([x], back);
    assert [x][..0] == [];
    assert PositionalTokens([x]) == ArgTokens(x);
    Associative(PositionalTokens(front), ArgTokens(x), PositionalTokens(back));
  }

  lemma SplitAt<T>(s: seq<T>, i: nat)
    requires i < |s|
    ensures s == s[..i] + [s[i]] + s[i + 1..]
  {
  }

  /** Arguments that are not lists give exactly one token each, their `str()`. */
  lemma {:induction false} ScalarArgumentsOneTokenEach(args: seq<Value>)
    requires forall k :: 0 <= k < |args| ==> !args[k].Items?
    ensures |PositionalTokens(args)| == |args|
    ensures forall k :: 0 <= k < |args| ==> PositionalTokens(args)[k] == Str(args[k])
  {
    if args != [] {
      ScalarArgumentsOneTokenEach(args[..|args| - 1]);
    }
  }

  /** An empty list among the positional arguments contributes no token. */
  lemma EmptyListAddsNothing(a: seq<Value>, empty: Value, b: seq<Value>)
    requires IsEmptySequence(empty)
    ensures PositionalTokens(a + [empty] + b) == PositionalTokens(a + b)
  {
    PositionalTokensAround(a, empty, b);
    PositionalTokensAppend(a, b);
  }

  /** A warning is issued exactly for each empty list, at its position. */
  lemma {:induction false} WarningsMarkEmptyLists(args: seq<Value>, p: nat)
    ensures p in EmptyListPositions(args) <==> p < |args| && IsEmptySequence(args[p])
  {
    if args != [] {
      WarningsMarkEmptyLists(args[..|args| - 1], p);
    }
  }

  // ---------------------------------------------------------------------------
  // Keyword arguments

  lemma {:induction false} AllKeywordTokensAppend(a: Kwargs, b: Kwargs)
    ensures AllKeywordTokens(a + b) == AllKeywordTokens(a) + AllKeywordTokens(b)
    decreases |b|
  {
    if b == [] {
      assert a + b == a;
    } else {
      var b' := b[..|b| - 1];
      var last := b[|b| - 1];
      assert (a + b)[..|a + b| - 1] == a + b';
      assert (a + b)[|a + b| - 1] == last;
      AllKeywordTokensAppend(a, b');
      Associative(AllKeywordTokens(a), AllKeywordTokens(b'), KeywordTokens(last.0, last.1));
    }
  }

  /** Where the tokens of keyword argument `i` start in the compiled list: after every positional token. */
  function KeywordStart(args: seq<Value>, kwargs: Kwargs, i: nat): nat
    requires i <= |kwargs|
  {
    |PositionalTokens(args)| + |AllKeywordTokens(kwargs[..i])|
  }

  /** The tokens of keyword argument `i` occupy the compiled list from its start to the next one's. */
  lemma KeywordSlice(args: seq<Value>, kwargs: Kwargs, i: nat)
    requires i < |kwargs|
    ensures var p := KeywordStart(args, kwargs, i);
      var toks := KeywordTokens(kwargs[i].0, kwargs[i].1);
      KeywordStart(args, kwargs, i + 1) == p + |toks| <= |Compiled(args, kwargs)| &&
      Compiled(args, kwargs)[p..p + |toks|] == toks
  {
    var positional := PositionalTokens(args);
    var before := AllKeywordTokens(kwargs[..i]);
    var toks := KeywordTokens(kwargs[i].0, kwargs[i].1);
    var after := AllKeywordTokens(kwargs[i + 1..]);
    KeywordStep(kwargs, i);
    assert kwargs == kwargs[..i + 1] + kwargs[i + 1..];
    AllKeywordTokensAppend(kwargs[..i + 1], kwargs[i + 1..]);
    Associative(positional, before + toks, after);
    Associative(positional, before, toks);
    MiddleSlice(positional + before, toks, after);
  }


  /**
   * A one-character key `k` yields the token `-k`, followed by exactly one
   * value token, `str(v)`, unless the value is `True`.
   */
  lemma ShortKeyword(args: seq<Value>, kwargs: Kwargs, i: nat)
    requires i < |kwargs| && |kwargs[i].0| == 1
    ensures var p := KeywordStart(args, kwargs, i);
      var c := Compiled(args, kwargs);
      p < |c| && c[p] == "-" + kwargs[i].0 &&
      (KeywordStart(args, kwargs, i + 1) == p + 1 <==> IsTrue(kwargs[i].1)) &&
      (KeywordStart(args, kwargs, i + 1) == p + 2 <==> !IsTrue(kwargs[i].1)) &&
      (!IsTrue(kwargs[i].1) ==> p + 1 < |c| && c[p + 1] == Str(kwargs[i].1))
  {
    KeywordSlice(args, kwargs, i);
    var p := KeywordStart(args, kwargs, i);
    var toks := KeywordTokens(kwargs[i].0, kwargs[i].1);
    var c := Compiled(args, kwargs);
    SliceAt(c, p, toks, 0);
    if !IsTrue(kwargs[i].1) {
      SliceAt(c, p, toks, 1);
    }
  }

  lemma SliceAt(c: seq<string>, p: nat, toks: seq<string>, j: nat)
    requires p + |toks| <= |c| && c[p..p + |toks|] == toks && j < |toks|
    ensures c[p + j] == toks[j]
  {
    assert c[p..p + |toks|][j] == c[p + j];
  }

  /**
   * A longer key has its underscores turned into dashes and yields the single
   * token `--key` when the value is `True`, `--key=str(v)` otherwise.
   */
  lemma LongKeyword(args: seq<Value>, kwargs: Kwargs, i: nat)
    requires i < |kwargs| && |kwargs[i].0| != 1
    ensures var p := KeywordStart(args, kwargs, i);
      var c := Compiled(args, kwargs);
      var flag := "--" + ReplaceUnderscores(kwargs[i].0);
      KeywordStart(args, kwargs, i + 1) == p + 1 && p < |c| &&
      c[p] == (if IsTrue(kwargs[i].1) then flag else flag + "=" + Str(kwargs[i].1)) &&
      '_' !in c[p][2..2 + |kwargs[i].0|]
  {
    KeywordSlice(args, kwargs, i);
    var p := KeywordStart(args, kwargs, i);
    var toks := KeywordTokens(kwargs[i].0, kwargs[i].1);
    var c := Compiled(args, kwargs);
    SliceAt(c, p, toks, 0);
    assert c[p][2..2 + |kwargs[i].0|] == ReplaceUnderscores(kwargs[i].0);
  }

  /**
   * Compiling positional arguments in two steps and concatenating gives the
   * tokens of compiling them in one step: the law behind baking.
   */
  lemma PositionalThenCall(baked: seq<Value>, args: seq<Value>, kwargs: Kwargs)
    ensures Compiled(baked, []) + Compiled(args, kwargs) == Compiled(baked + args, kwargs)
  {
    PositionalTokensAppend(baked, args);
    assert Compiled(baked, []) == PositionalTokens(baked);
    Associative(PositionalTokens(baked), PositionalTokens(args), AllKeywordTokens(kwargs));
  }

  /** The single-letter keyword forms the test suite checks: a flag, then its value unless it is `True`. */
  lemma ShortKeywordExamples()
    ensures Compiled([], [("d", Text("\t"))]) == ["-d", "\t"]
    ensures Compiled([], [("v", Bool(true))]) == ["-v"]
  {
    OneKeyword("d", Text("\t"));
    OneKeyword("v", Bool(true));
    assert "-" + "d" == "-d";
    assert ["-d"] + [Str(Text("\t"))] == ["-d", "\t"];
    assert "-" + "v" == "-v";
    assert ["-v"] + [] == ["-v"];
  }

  /** A tuple value is passed as its Python `str`: `ls(x=(1, 2))` runs `ls -x "(1, 2)"`. */
  lemma TupleKeywordExample()
    ensures Compiled([], [("x", Items([Int(1), Int(2)], Tuple))]) == ["-x", "(1, 2)"]
  {
    OneKeyword("x", Items([Int(1), Int(2)], Tuple));
    TupleStrExamples();
    assert "-" + "x" == "-x";
    assert ["-x"] + ["(1, 2)"] == ["-x", "(1, 2)"];
  }

  /** The long keyword forms the test suite checks: `--key=value`, or `--key` for `True`, with `_` as `-`. */
  lemma LongKeywordExamples()
    ensures Compiled([], [("name", Text("test"))]) == ["--name=test"]
    ensures Compiled([], [("verbose", Bool(true))]) == ["--verbose"]
    ensures Compiled([], [("no_create_home", Bool(true))]) == ["--no-create-home"]
  {
    OneKeyword("name", Text("test"));
    OneKeyword("verbose", Bool(true));
    OneKeyword("no_create_home", Bool(true));
    assert ReplaceUnderscores("name") == "name";
    assert "--" + "name" + "=" + "test" == "--name=test";
    assert ReplaceUnderscores("verbose") == "verbose";
    assert "--" + "verbose" == "--verbose";
    assert ReplaceUnderscores("no_create_home") == "no-create-home";
    assert "--" + "no-create-home" == "--no-create-home";
  }

  /** A call with one keyword argument and no positional ones compiles to that argument's tokens. */
  lemma OneKeyword(key: string, value: Value)
    ensures Compiled([], [(key, value)]) == KeywordTokens(key, value)
  {
    var kwargs := [(key, value)];
    assert kwargs[..|kwargs| - 1] == [];
    assert AllKeywordTokens(kwargs) == [] + KeywordTokens(key, value);
    assert PositionalTokens([]) == [];
  }
}
