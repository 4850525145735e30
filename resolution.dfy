/**
 * Program name resolution (`resolve_program`): a Python attribute name cannot
 * hold a dash, so a name with underscores that is not found as written is
 * looked up again with every underscore turned into a dash.
 *
 * `which` searches the file system and `PATH`; here it is a parameter, an
 * oracle from a program name to the path it finds.
 */
module Resolution {
  import opened Wrappers
  import opened PyValues

  /** `which(program)`: the path of the executable, or `None`. */
  type Which = string -> Option<string>

  /** Is a result of `which` truthy (`if path:`)? An empty path counts as not found. */
  predicate Found(path: Option<string>) {
    path.Some? && path.value != ""
  }

  /** The names tried, in order: the name as written, then its dashed form if it has an underscore. */
  function Candidates(program: string): (names: seq<string>)
    ensures |names| >= 1 && names[0] == program
  {
    if '_' in program then [program, ReplaceUnderscores(program)] else [program]
  }

  /** Reference definition: the first candidate that `which` finds. */
  function FirstFound(names: seq<string>, which: Which): Option<string> {
    if names == [] then None
    else if Found(which(names[0])) then which(names[0])
    else FirstFound(names[1..], which)
  }

  /** `resolve_program(program)` */
  function ResolveProgram(program: string, which: Which): (r: Option<string>)
    ensures r == FirstFound(Candidates(program), which)
    ensures r.Some? ==> r.value != ""
    ensures Found(which(program)) ==> r == which(program)
    ensures '_' !in program && !Found(which(program)) ==> r.None?
  {
    var path := which(program);
    if Found(path) then path
    else if '_' in program then
      var dashed := which(ReplaceUnderscores(program));
      var names := Candidates(program);
      assert names == [program, ReplaceUnderscores(program)];
      assert names[1..][1..] == [];
      assert FirstFound(names, which) == FirstFound(names[1..], which);
      if Found(dashed) then dashed else None
    else None
  }

  /** Nothing is found exactly when no candidate is found. */
  lemma {:induction false} FirstFoundNone(names: seq<string>, which: Which)
    ensures FirstFound(names, which).None? <==> forall k :: 0 <= k < |names| ==> !Found(which(names[k]))
  {
    if names != [] {
      FirstFoundNone(names[1..], which);
      assert forall k :: 1 <= k < |names| ==> names[k] == names[1..][k - 1];
    }
  }

  /** A resolved path is what `which` returned for one of the candidates. */
  lemma {:induction false} FirstFoundIsCandidate(names: seq<string>, which: Which)
    requires FirstFound(names, which).Some?
    ensures exists k :: 0 <= k < |names| && FirstFound(names, which) == which(names[k])
  {
    if !Found(which(names[0])) {
      FirstFoundIsCandidate(names[1..], which);
      var k :| 0 <= k < |names[1..]| && FirstFound(names[1..], which) == which(names[1..][k]);
      assert names[1..][k] == names[k + 1];
    }
  }

  /** `resolve_program` fails exactly when neither the name nor its dashed form is found. */
  lemma NotFoundIff(program: string, which: Which)
    ensures ResolveProgram(program, which).None? <==>
      !Found(which(program)) && ('_' in program ==> !Found(which(ReplaceUnderscores(program))))
  {
    FirstFoundNone(Candidates(program), which);
  }
}
