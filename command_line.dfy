/**
 * The token vector a `Command` call runs and the text forms built from it:
 * the prefixes of enclosing `with` contexts, the path, the baked tokens and the
 * freshly compiled tokens (`Command.__call__`), the command's own text form
 * (`Command.__unicode__`), and the `str.split` that reads a text form back.
 */
module CommandLine {
  import opened PyValues
  import opened ArgCompiler
  import opened CallOptions

  /** The entries of the prepend stack, one after another. */
  function Concat(entries: seq<seq<string>>): seq<string> {
    if entries == [] then [] else Concat(entries[..|entries| - 1]) + entries[|entries| - 1]
  }

  lemma {:induction false} ConcatAppend(a: seq<seq<string>>, b: seq<seq<string>>)
    ensures Concat(a + b) == Concat(a) + Concat(b)
    decreases |b|
  {
    if b != [] {
      var b' := b[..|b| - 1];
      assert (a + b)[..|a + b| - 1] == a + b';
      ConcatAppend(a, b');
    } else {
      assert a + b == a;
    }
  }

  /** The tokens a call contributes by itself: the path, the baked tokens and the compiled arguments. */
  function OwnTokens(path: string, baked: seq<string>, args: seq<Value>, kwargs: Kwargs): seq<string> {
    [path] + baked + Compiled(args, Unreserved(kwargs))
  }

  /** The token vector of a call made while the prepend stack holds `entries`. */
  function CallArgv(entries: seq<seq<string>>, path: string, baked: seq<string>, args: seq<Value>, kwargs: Kwargs): seq<string> {
    Concat(entries) + OwnTokens(path, baked, args, kwargs)
  }

  /**
   * Baking positional arguments and calling with more is calling the unbaked
   * command with both, baked ones first (bake keywords that are all options).
   */
  lemma BakedCallSameArgv(entries: seq<seq<string>>, path: string, baked: seq<string>,
                          bakeArgs: seq<Value>, bakeKwargs: Kwargs, args: seq<Value>, kwargs: Kwargs)
    requires Unreserved(bakeKwargs) == []
    ensures CallArgv(entries, path, baked + Compiled(bakeArgs, Unreserved(bakeKwargs)), args, kwargs)
         == CallArgv(entries, path, baked, bakeArgs + args, kwargs)
  {
    var u := Unreserved(kwargs);
    var more := Compiled(bakeArgs, Unreserved(bakeKwargs));
    PositionalThenCall(bakeArgs, args, u);
    Associative([path], baked, more);
    Associative([path] + baked, more, Compiled(args, u));
  }

  /** Inside a `with` context, every call's token vector starts with the context's prefix. */
  lemma PrefixComesFirst(entries: seq<seq<string>>, outer: seq<string>, path: string, baked: seq<string>,
                         args: seq<Value>, kwargs: Kwargs)
    ensures var argv := CallArgv(entries + [outer], path, baked, args, kwargs);
      |argv| >= |Concat(entries)| + |outer| && argv[|Concat(entries)|..|Concat(entries)| + |outer|] == outer
  {
    ConcatAppend(entries, [outer]);
    assert Concat([outer]) == Concat([]) + outer;
  }

  // ---------------------------------------------------------------------------
  // Nested `_with` contexts

  /**
   * The stack entry a `_with=True` call pushes as written: the whole assembled
   * command, which already holds the prefixes of the enclosing contexts.
   */
  function WithEntryAsWritten(entries: seq<seq<string>>, own: seq<string>): seq<string> {
    Concat(entries) + own
  }

  /** As written, a nested `_with` context repeats every enclosing prefix. */
  lemma WithEntryAsWrittenRepeatsPrefix(entries: seq<seq<string>>, own: seq<string>)
    ensures Concat(entries + [WithEntryAsWritten(entries, own)]) == Concat(entries) + Concat(entries) + own
  {
    ConcatAppend(entries, [WithEntryAsWritten(entries, own)]);
    assert Concat([WithEntryAsWritten(entries, own)]) == Concat([]) + WithEntryAsWritten(entries, own);
  }

  /** `with sudo(_with=True): with nice(_with=True): ls()` runs `sudo sudo nice ls` as written. */
  lemma NestedWithAsWritten()
    ensures var outer: seq<seq<string>> := [["sudo"]];
      CallArgv(outer + [WithEntryAsWritten(outer, ["nice"])], "ls", [], [], [])
        == ["sudo", "sudo", "nice", "ls"]
  {
    var outer: seq<seq<string>> := [["sudo"]];
    assert Concat(outer) == ["sudo"] by {
      assert Concat(outer) == Concat([]) + ["sudo"];
    }
    WithEntryAsWrittenRepeatsPrefix(outer, ["nice"]);
    assert Compiled([], Unreserved([])) == [];
  }

  /** Pushing only the call's own tokens, every enclosing prefix appears once. */
  lemma NestedWithPrefixOnce(entries: seq<seq<string>>, own: seq<string>)
    ensures Concat(entries + [own]) == Concat(entries) + own
  {
    ConcatAppend(entries, [own]);
    assert Concat([own]) == Concat([]) + own;
  }

  /** The same nested contexts with the own-token push run `sudo nice ls`. */
  lemma NestedWithCorrected()
    ensures var outer: seq<seq<string>> := [["sudo"]];
      CallArgv(outer + [OwnTokens("nice", [], [], [])], "ls", [], [], [])
        == ["sudo", "nice", "ls"]
  {
    var outer: seq<seq<string>> := [["sudo"]];
    assert Compiled([], Unreserved([])) == [];
    assert Concat(outer) == ["sudo"] by {
      assert Concat(outer) == Concat([]) + ["sudo"];
    }
    NestedWithPrefixOnce(outer, OwnTokens("nice", [], [], []));
  }

  // ---------------------------------------------------------------------------
  // Text forms

  /** `Command.__unicode__`: the path, then a space and the joined baked tokens when that text is not empty. */
  function TextForm(path: string, baked: seq<string>): (r: string)
    ensures |r| >= |path| && r[..|path|] == path
    ensures baked == [] ==> r == path
  {
    var joined := Join(baked, " ");
    if joined != "" then path + " " + joined else path
  }

  /** The last position of `c` in `s`. */
  function LastIndexOf(s: string, c: char): (i: nat)
    requires c in s
    ensures i < |s| && s[i] == c
    ensures forall j :: i < j < |s| ==> s[j] != c
  {
    if s[|s| - 1] == c then |s| - 1 else LastIndexOf(s[..|s| - 1], c)
  }

  /** `s.split(sep)` for a one-character separator. */
  function Split(s: string, sep: char): (parts: seq<string>)
    ensures parts != []
    decreases |s|
  {
    if sep in s then
      var i := LastIndexOf(s, sep);
      Split(s[..i], sep) + [s[i + 1..]]
    else [s]
  }

  /** In `head + sep + last`, with no separator in `last`, the last separator is the one added. */
  lemma LastSeparator(head: string, sep: char, last: string)
    requires sep !in last
    ensures sep in head + [sep] + last && LastIndexOf(head + [sep] + last, sep) == |head|
  {
    var s := head + [sep] + last;
    assert s[|head|] == sep;
    assert forall j :: |head| < j < |s| ==> s[j] == last[j - |head| - 1];
  }

  /** Splitting `head + sep + last` splits `head` and adds `last` as the final part. */
  lemma SplitLast(head: string, sep: char, last: string)
    requires sep !in last
    ensures Split(head + [sep] + last, sep) == Split(head, sep) + [last]
  {
    var s := head + [sep] + last;
    LastSeparator(head, sep, last);
    assert s[..|head|] == head;
    assert s[|head| + 1..] == last;
  }

  /** Splitting a join on a separator no part contains gives the parts back. */
  lemma {:induction false} SplitJoin(parts: seq<string>, sep: char)
    requires parts != []
    requires forall k :: 0 <= k < |parts| ==> sep !in parts[k]
    ensures Split(Join(parts, [sep]), sep) == parts
    decreases |parts|
  {
    if |parts| > 1 {
      var init := parts[..|parts| - 1];
      var last := parts[|parts| - 1];
      assert Join(parts, [sep]) == Join(init, [sep]) + [sep] + last;
      SplitLast(Join(init, [sep]), sep, last);
      SplitJoin(init, sep);
    }
  }

  lemma {:induction false} JoinNotEmpty(parts: seq<string>, sep: string)
    requires parts != [] && parts[|parts| - 1] != ""
    ensures Join(parts, sep) != ""
  {
  }

  /** A path or token that `str.split(" ")` keeps whole. */
  predicate PlainToken(t: string) {
    t != "" && ' ' !in t
  }

  /** The text form reads back: splitting it on spaces gives the path and the baked tokens. */
  lemma TextFormSplits(path: string, baked: seq<string>)
    requires PlainToken(path)
    requires forall k :: 0 <= k < |baked| ==> PlainToken(baked[k])
    ensures Split(TextForm(path, baked), ' ') == [path] + baked
  {
    if baked != [] {
      JoinNotEmpty(baked, " ");
      JoinAppend([path], baked, " ");
      assert Join([path], " ") == path;
      assert TextForm(path, baked) == Join([path] + baked, [' ']);
    }
    SplitJoin([path] + baked, ' ');
  }

  /**
   * `Command.__eq__` compares text forms; for plain tokens two commands are
   * equal exactly when they have the same path and the same baked tokens.
   */
  lemma TextFormEqualIff(path1: string, baked1: seq<string>, path2: string, baked2: seq<string>)
    requires PlainToken(path1) && forall k :: 0 <= k < |baked1| ==> PlainToken(baked1[k])
    requires PlainToken(path2) && forall k :: 0 <= k < |baked2| ==> PlainToken(baked2[k])
    ensures TextForm(path1, baked1) == TextForm(path2, baked2) <==> path1 == path2 && baked1 == baked2
  {
    TextFormSplits(path1, baked1);
    TextFormSplits(path2, baked2);
    if TextForm(path1, baked1) == TextForm(path2, baked2) {
      assert [path1] + baked1 == [path2] + baked2;
      assert baked1 == ([path1] + baked1)[1..];
      assert baked2 == ([path2] + baked2)[1..];
    }
  }

  /** Baking more tokens extends the text form by a space and the new tokens. */
  lemma BakeExtendsTextForm(path: string, baked: seq<string>, more: seq<string>)
    requires Join(baked, " ") != "" && more != []
    ensures TextForm(path, baked + more) == TextForm(path, baked) + " " + Join(more, " ")
  {
    assert baked != [];
    JoinAppend(baked, more, " ");
  }
}
