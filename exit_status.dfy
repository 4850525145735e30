/**
 * The exit-status taxonomy of pbs3: one `ErrorReturnCode_<n>` exception class
 * per exit status, memoised in a process-wide cache (`get_rc_exc`), and the
 * `ErrorReturnCode` exception, whose message shows at most 200 bytes of each
 * captured stream.
 */
module ExitStatus {
  import opened Wrappers
  import opened PyValues
  import opened CallOptions

  // ---------------------------------------------------------------------------
  // Stream previews

  /** `ErrorReturnCode.truncate_cap` */
  const TruncateCap: nat := 200

  datatype StreamName = StdoutStream | StderrStream

  /** The attribute of the exception that holds the whole stream. */
  function StreamAttribute(name: StreamName): string {
    match name
    case StdoutStream => "stdout"
    case StderrStream => "stderr"
  }

  /**
   * Does `"<redirected to '%s'>" % target` format? `%` takes a tuple as its
   * list of arguments, so a tuple of other than one element raises
   * `TypeError`; any other value is the one argument.
   */
  predicate NoteFormats(target: Value) {
    !(target.Items? && target.kind == Tuple && |target.elems| != 1)
  }

  /** The value `%s` shows: the element of a one-element tuple, else the target. */
  function NoteOperand(target: Value): Value {
    if target.Items? && target.kind == Tuple && |target.elems| == 1 then target.elems[0] else target
  }

  /** The placeholder shown for a stream that was not captured. */
  function RedirectedNote(target: Value): string
    requires NoteFormats(target)
  {
    "<redirected to '" + Str(NoteOperand(target)) + "'>"
  }

  /** The placeholder for a redirect to a file name, given as a string or as a one-element tuple. */
  lemma RedirectedNoteExamples()
    ensures RedirectedNote(Text("log")) == "<redirected to 'log'>"
    ensures RedirectedNote(Items([Text("log")], Tuple)) == "<redirected to 'log'>"
    ensures !NoteFormats(Items([Text("a"), Text("b")], Tuple)) && !NoteFormats(Items([], Tuple))
    ensures NoteFormats(Items([Text("a"), Text("b")], List))
  {
    assert Str(Text("log")) == "log";
    assert "<redirected to '" + "log" + "'>" == "<redirected to 'log'>";
  }

  /** The note appended after a truncated stream. */
  function MoreNote(omitted: nat, name: StreamName): string {
    "... (" + NatToString(omitted) + NoteTail(name)
  }

  function NoteTail(name: StreamName): string {
    " more, please see e." + StreamAttribute(name) + ")"
  }

  function Min(a: nat, b: nat): nat {
    if a <= b then a else b
  }

  /**
   * The preview of one stream in the exception message, as `__init__` builds
   * it: the placeholder when the stream was redirected (`None`), otherwise
   * its first `TruncateCap` bytes, followed by a note of how many bytes were
   * left out when any were. The cut may fall inside a character; see
   * `TruncationSplitsCharacter` and the corrected `Preview`.
   */
  function PreviewAsWritten(stream: Option<seq<byte>>, target: Value, name: StreamName): (r: seq<byte>)
    requires stream.None? ==> NoteFormats(target)
    ensures stream.None? ==> r == Utf8Encode(RedirectedNote(target))
    ensures stream.Some? ==>
      var keep := Min(|stream.value|, TruncateCap);
      |r| >= keep && r[..keep] == stream.value[..keep]
    ensures stream.Some? ==> (|r| > TruncateCap <==> |stream.value| > TruncateCap)
    ensures stream.Some? && |stream.value| <= TruncateCap ==> r == stream.value
  {
    match stream
    case None => Utf8Encode(RedirectedNote(target))
    case Some(b) =>
      var head := b[..Min(|b|, TruncateCap)];
      var omitted := |b| - |head|;
      if omitted != 0 then
        Utf8EncodeLength(MoreNote(omitted, name));
        head + Utf8Encode(MoreNote(omitted, name))
      else
        assert head == b;
        head
  }

  /**
   * The longest prefix of `b` of at most `cap` bytes that ends where a
   * character starts, or at the end of `b`.
   */
  function BoundaryCut(b: seq<byte>, cap: nat): (k: nat)
    ensures k <= cap && k <= |b|
    ensures |b| <= cap ==> k == |b|
    ensures k == 0 || k == |b| || !IsContinuation(b[k])
    ensures forall j :: k < j <= cap && j < |b| ==> IsContinuation(b[j])
    decreases cap
  {
    if |b| <= cap then |b|
    else if cap == 0 || !IsContinuation(b[cap]) then cap
    else BoundaryCut(b, cap - 1)
  }

  /**
   * The preview of one stream with the cut moved back to a character
   * boundary, so that the message built from it always decodes.
   */
  function Preview(stream: Option<seq<byte>>, target: Value, name: StreamName): (r: seq<byte>)
    requires stream.None? ==> NoteFormats(target)
    ensures stream.None? ==> r == Utf8Encode(RedirectedNote(target))
    ensures stream.Some? ==>
      var keep := BoundaryCut(stream.value, TruncateCap);
      |r| >= keep && r[..keep] == stream.value[..keep]
    ensures stream.Some? && |stream.value| <= TruncateCap ==> r == stream.value
  {
    match stream
    case None => Utf8Encode(RedirectedNote(target))
    case Some(b) =>
      var keep := BoundaryCut(b, TruncateCap);
      var omitted := |b| - keep;
      if omitted != 0 then b[..keep] + Utf8Encode(MoreNote(omitted, name)) else b
  }

  /** Where the cut at `TruncateCap` already falls on a boundary, both previews agree. */
  lemma PreviewMatchesAsWritten(b: seq<byte>, target: Value, name: StreamName)
    requires |b| <= TruncateCap || !IsContinuation(b[TruncateCap])
    ensures Preview(Some(b), target, name) == PreviewAsWritten(Some(b), target, name)
  {
  }

  /** The corrected preview of a stream that decodes decodes too, and so does the placeholder. */
  lemma PreviewDecodes(stream: Option<seq<byte>>, target: Value, name: StreamName)
    requires stream.None? ==> NoteFormats(target)
    requires stream.Some? ==> Decodes(stream.value)
    ensures Decodes(Preview(stream, target, name))
  {
    if stream.None? {
      EncodedDecodes(RedirectedNote(target));
    } else {
      CutPreviewDecodes(stream.value, target, name);
    }
  }

  /** The corrected cut of a stream that decodes, followed by the note, decodes. */
  lemma CutPreviewDecodes(b: seq<byte>, target: Value, name: StreamName)
    requires Decodes(b)
    ensures Decodes(Preview(Some(b), target, name))
  {
    var keep := BoundaryCut(b, TruncateCap);
    if keep < |b| {
      var note := MoreNote(|b| - keep, name);
      assert Preview(Some(b), target, name) == b[..keep] + Utf8Encode(note);
      var t :| Utf8Encode(t) == b;
      EncodedPrefixDecodes(t, keep);
      EncodedDecodes(note);
      DecodesConcat(b[..keep], Utf8Encode(note));
    }
  }

  /**
   * As written, the cut can fall inside a character: 199 ASCII characters and
   * then any two-byte character encode to 201 bytes, the preview keeps only
   * the first byte of the last character, and the message built from it no
   * longer decodes.
   */
  lemma TruncationSplitsCharacter(a: string, c: char, target: Value, name: StreamName)
    requires IsAscii(a) && |a| == TruncateCap - 1
    requires 0x80 <= c as int < 0x800
    ensures var b := Utf8Encode(a + [c]);
      Decodes(b) && !Decodes(PreviewAsWritten(Some(b), target, name))
  {
    var b := Utf8Encode(a + [c]);
    assert Utf8Encode(a + [c]) == b;
    StreamEndsInLead(a, c);
    var p := PreviewAsWritten(Some(b), target, name);
    NoteAfterCut(b, target, name);
    assert 0xC0 <= p[TruncateCap - 1] < 0xE0 && !IsContinuation(p[TruncateCap]);
    NotDecodable(p);
  }

  /** The 199 ASCII bytes and then the two bytes of `c`, the first of them a lead byte. */
  lemma StreamEndsInLead(a: string, c: char)
    requires IsAscii(a) && |a| == TruncateCap - 1
    requires 0x80 <= c as int < 0x800
    ensures |Utf8Encode(a + [c])| == TruncateCap + 1
    ensures 0xC0 <= Utf8Encode(a + [c])[TruncateCap - 1] < 0xE0
  {
    assert [c][..0] == [];
    assert Utf8Encode([c]) == EncodeChar(c);
    Utf8EncodeAppend(a, [c]);
    AsciiEncoding(a);
    EncodeCharShape(c);
    assert |EncodeChar(c)| == 2;
  }

  /** Past the cap, the preview of a 201-byte stream goes on with the note, which starts with '.'. */
  lemma NoteAfterCut(b: seq<byte>, target: Value, name: StreamName)
    requires |b| == TruncateCap + 1
    ensures var p := PreviewAsWritten(Some(b), target, name);
      |p| > TruncateCap && p[TruncateCap - 1] == b[TruncateCap - 1] && p[TruncateCap] == '.' as int as byte
  {
    var note := MoreNote(1, name);
    LongPreview(b, target, name);
    assert note == "." + note[1..];
    Utf8EncodeAppend(".", note[1..]);
    EncodeSingle('.');
  }

  /** The preview of a stream longer than the cap: its first `TruncateCap` bytes, then the note. */
  lemma LongPreview(b: seq<byte>, target: Value, name: StreamName)
    requires |b| > TruncateCap
    ensures PreviewAsWritten(Some(b), target, name) == b[..TruncateCap] + Utf8Encode(MoreNote(|b| - TruncateCap, name))
  {
  }

  /** One such stream: 199 letters `a` and then 'é'. */
  lemma TruncationSplitsE9()
    ensures var b := Utf8Encode(seq(199, _ => 'a') + "\U{E9}");
      !Decodes(PreviewAsWritten(Some(b), NoneValue, StdoutStream))
  {
    var a: string := seq(199, _ => 'a');
    TruncationSplitsCharacter(a, '\U{E9}', NoneValue, StdoutStream);
  }

  lemma AsciiConcat(a: string, b: string)
    requires IsAscii(a) && IsAscii(b)
    ensures IsAscii(a + b)
  {
  }

  lemma {:induction false} DigitsAscii(n: nat)
    ensures IsAscii(NatToString(n))
    decreases n
  {
    if n >= 10 {
      DigitsAscii(n / 10);
    }
  }

  lemma NoteTailAscii(name: StreamName)
    ensures IsAscii(NoteTail(name))
  {
    match name
    case StdoutStream =>
      assert NoteTail(name) == " more, please see e.stdout)";
    case StderrStream =>
      assert NoteTail(name) == " more, please see e.stderr)";
  }

  /** The note is plain ASCII: one byte per character. */
  lemma MoreNoteAscii(omitted: nat, name: StreamName)
    ensures IsAscii(MoreNote(omitted, name))
  {
    DigitsAscii(omitted);
    NoteTailAscii(name);
    AsciiConcat("... (", NatToString(omitted));
    AsciiConcat("... (" + NatToString(omitted), NoteTail(name));
  }

  /** Two ASCII strings with the same encoding are the same string. */
  lemma AsciiEncodingInjective(s: string, t: string)
    requires IsAscii(s) && IsAscii(t)
    requires Utf8Encode(s) == Utf8Encode(t)
    ensures s == t
  {
    AsciiEncoding(s);
    AsciiEncoding(t);
    assert forall k :: 0 <= k < |s| ==> s[k] as int == t[k] as int;
  }

  /** The note names the omitted count: different counts give different notes. */
  lemma MoreNoteInjective(m: nat, n: nat, name: StreamName)
    requires MoreNote(m, name) == MoreNote(n, name)
    ensures m == n
  {
    MiddleCancel("... (", NatToString(m), NatToString(n), NoteTail(name));
    NatToStringRoundTrip(m);
    NatToStringRoundTrip(n);
  }

  /**
   * A truncated preview still tells how long the stream was: two streams
   * longer than the cap whose previews agree have the same length.
   */
  lemma PreviewRecordsLength(a: seq<byte>, b: seq<byte>, target: Value, name: StreamName)
    requires |a| > TruncateCap && |b| > TruncateCap
    requires PreviewAsWritten(Some(a), target, name) == PreviewAsWritten(Some(b), target, name)
    ensures |a| == |b|
  {
    var m, n := |a| - TruncateCap, |b| - TruncateCap;
    var pa, pb := PreviewAsWritten(Some(a), target, name), PreviewAsWritten(Some(b), target, name);
    assert pa == a[..TruncateCap] + Utf8Encode(MoreNote(m, name));
    assert pb == b[..TruncateCap] + Utf8Encode(MoreNote(n, name));
    assert Utf8Encode(MoreNote(m, name)) == pa[TruncateCap..];
    assert Utf8Encode(MoreNote(n, name)) == pb[TruncateCap..];
    MoreNoteAscii(m, name);
    MoreNoteAscii(n, name);
    AsciiEncodingInjective(MoreNote(m, name), MoreNote(n, name));
    MoreNoteInjective(m, n, name);
  }

  // ---------------------------------------------------------------------------
  // Exception classes

  /** `"ErrorReturnCode_%d" % rc` */
  function ClassName(rc: int): string {
    "ErrorReturnCode_" + IntToString(rc)
  }

  /** A subclass of `ErrorReturnCode` made by `get_rc_exc`; its identity is the object's. */
  class ErrorClass {
    const code: int
    const name: string

    constructor (code: int)
      ensures this.code == code && name == ClassName(code)
    {
      this.code := code;
      name := ClassName(code);
    }
  }

  /** `rc_exc_cache`: the exception class made for each exit status so far. */
  /**
   * The cache after `get_rc_exc(rc)`: `rc` is cached, a class already cached
   * for it is kept, and no other entry changes.
   */
  predicate CacheAfterLookup(before: map<int, ErrorClass>, after: map<int, ErrorClass>, rc: int) {
    rc in after && after == before[rc := after[rc]] && (rc in before ==> after[rc] == before[rc])
  }

  class ErrorRegistry {
    var cache: map<int, ErrorClass>

    /** Each cached class is the one for its own status. */
    predicate Valid()
      reads this
    {
      forall rc :: rc in cache ==> cache[rc].code == rc && cache[rc].name == ClassName(rc)
    }

    constructor ()
      ensures cache == map[] && Valid()
    {
      cache := map[];
    }

    /**
     * `get_rc_exc(rc)`: the cached class for `rc` if there is one; otherwise a
     * new class, which is cached. The cache gains at most this one entry.
     */
    method GetRcExc(rc: int) returns (exc: ErrorClass)
      requires Valid()
      modifies this
      ensures Valid()
      ensures exc.code == rc && exc.name == ClassName(rc)
      ensures rc in cache && cache[rc] == exc
      ensures rc in old(cache) ==> exc == old(cache)[rc] && cache == old(cache)
      ensures rc !in old(cache) ==> fresh(exc) && cache == old(cache)[rc := exc]
      ensures CacheAfterLookup(old(cache), cache, rc)
    {
      if rc in cache {
        return cache[rc];
      }
      exc := new ErrorClass(rc);
      cache := cache[rc := exc];
    }
  }

  /** Different exit statuses never share an exception class. */
  lemma DistinctCodesDistinctClasses(registry: ErrorRegistry, a: int, b: int)
    requires registry.Valid()
    requires a in registry.cache && b in registry.cache
    ensures registry.cache[a] == registry.cache[b] <==> a == b
  {
  }

  /**
   * Lookups only ever add classes: after a lookup every class cached before
   * is still cached for its status, so looking a status up again, whatever
   * was looked up in between, gives the class it got the first time
   * (`get_rc_exc(99) is get_rc_exc(99)`).
   */
  lemma {:induction false} LookupsKeepClasses(caches: seq<map<int, ErrorClass>>, statuses: seq<int>, k: int)
    requires |caches| == |statuses| + 1
    requires forall i :: 0 <= i < |statuses| ==> CacheAfterLookup(caches[i], caches[i + 1], statuses[i])
    requires k in caches[0]
    ensures k in caches[|caches| - 1] && caches[|caches| - 1][k] == caches[0][k]
    decreases |statuses|
  {
    if statuses != [] {
      var n := |statuses|;
      LookupsKeepClasses(caches[..n], statuses[..n - 1], k);
      assert caches[..n][n - 1] == caches[n - 1];
      assert CacheAfterLookup(caches[n - 1], caches[n], statuses[n - 1]);
    }
  }

  /** Distinct statuses have distinct class names. */
  lemma ClassNameInjective(a: int, b: int)
    requires a != b
    ensures ClassName(a) != ClassName(b)
  {
    IntToStringInjective(a, b);
    assert ClassName(a)[16..] == IntToString(a);
    assert ClassName(b)[16..] == IntToString(b);
  }

  /** The name the test suite expects for status 42. */
  lemma ClassNameExample()
    ensures ClassName(42) == "ErrorReturnCode_42"
  {
    assert NatToString(4) == "4";
    assert NatToString(42) == "4" + "2";
  }

  // ---------------------------------------------------------------------------
  // The exception

  /** The text of the message around the command and the two previews. */
  const RanLabel: string := "\n\nRan: "
  const StdoutLabel: string := "\n\nSTDOUT:\n\n  "
  const StderrLabel: string := "\n\nSTDERR:\n\n  "

  /** An `ErrorReturnCode_<n>` instance: its class, the command, both streams and the call options. */
  /** Why `ErrorReturnCode.__init__` raises instead of building its message. */
  datatype MessageError =
      /** `TypeError` from `%` on a redirect target that is a tuple of other than one element */
    | NoteTypeError
      /** `UnicodeDecodeError` from the strict decode of this preview */
    | Undecodable(preview: seq<byte>)

  datatype ErrorReturnCode = ErrorReturnCode(
    kind: ErrorClass,
    fullCmd: string,
    stdout: Option<seq<byte>>,
    stderr: Option<seq<byte>>,
    callArgs: Options)
  {
    /** Do the placeholders of the streams that were not captured format? */
    predicate NotesFormat()
      requires Out in callArgs && Err in callArgs
    {
      (stdout.Some? || NoteFormats(callArgs[Out])) && (stderr.Some? || NoteFormats(callArgs[Err]))
    }

    /** The stdout part of the message, cut as `__init__` cuts it. */
    function StdoutPreview(): (r: seq<byte>)
      requires Out in callArgs && (stdout.Some? || NoteFormats(callArgs[Out]))
      ensures stdout.None? ==> r == Utf8Encode(RedirectedNote(callArgs[Out]))
      ensures stdout.Some? && |stdout.value| <= TruncateCap ==> r == stdout.value
      ensures stdout.Some? ==> (|r| > TruncateCap <==> |stdout.value| > TruncateCap)
    {
      PreviewAsWritten(stdout, callArgs[Out], StdoutStream)
    }

    /** The stderr part of the message, cut as `__init__` cuts it. */
    function StderrPreview(): (r: seq<byte>)
      requires Err in callArgs && (stderr.Some? || NoteFormats(callArgs[Err]))
      ensures stderr.None? ==> r == Utf8Encode(RedirectedNote(callArgs[Err]))
      ensures stderr.Some? && |stderr.value| <= TruncateCap ==> r == stderr.value
      ensures stderr.Some? ==> (|r| > TruncateCap <==> |stderr.value| > TruncateCap)
    {
      PreviewAsWritten(stderr, callArgs[Err], StderrStream)
    }

    /**
     * The message `__init__` builds: the command and both previews, each
     * decoded strictly. A placeholder that does not format raises
     * `TypeError` first; otherwise, where a preview does not decode,
     * `__init__` raises `UnicodeDecodeError`, over the first such preview.
     */
    function Message(): (r: Result<string, MessageError>)
      requires Out in callArgs && Err in callArgs
      ensures r == Failure(NoteTypeError) <==> !NotesFormat()
      ensures NotesFormat() ==> (r.Success? <==> Decodes(StdoutPreview()) && Decodes(StderrPreview()))
      ensures NotesFormat() && r.Failure? ==>
        r.error == Undecodable(if Decodes(StdoutPreview()) then StderrPreview() else StdoutPreview())
      ensures r.Success? ==>
        NotesFormat() &&
        Utf8Encode(r.value) == Utf8Encode(RanLabel + fullCmd + StdoutLabel) + StdoutPreview()
                               + Utf8Encode(StderrLabel) + StderrPreview()
    {
      if !NotesFormat() then Failure(NoteTypeError)
      else
        DecodesIff(StdoutPreview());
        DecodesIff(StderrPreview());
        match Utf8Decode(StdoutPreview())
        case None => Failure(Undecodable(StdoutPreview()))
        case Some(out) =>
          match Utf8Decode(StderrPreview())
          case None => Failure(Undecodable(StderrPreview()))
          case Some(err) =>
            MessageBytes(RanLabel + fullCmd + StdoutLabel, StdoutPreview(), StderrLabel, StderrPreview());
            Success(RanLabel + fullCmd + StdoutLabel + out + StderrLabel + err)
    }
  }

  /** A text that holds decoded parts encodes to the parts' own bytes. */
  lemma MessageBytes(head: string, out: seq<byte>, middle: string, err: seq<byte>)
    requires Utf8Decode(out).Some? && Utf8Decode(err).Some?
    ensures Utf8Encode(head + Utf8Decode(out).value + middle + Utf8Decode(err).value)
      == Utf8Encode(head) + out + Utf8Encode(middle) + err
  {
    var o, e := Utf8Decode(out).value, Utf8Decode(err).value;
    EncodeDecoded(out);
    EncodeDecoded(err);
    Utf8EncodeAppend(head, o);
    Utf8EncodeAppend(head + o, middle);
    Utf8EncodeAppend(head + o + middle, e);
  }

  /**
   * The exception for a failing command whose stdout is 199 letters `a` and
   * then 'é' cannot be built: its message raises `UnicodeDecodeError`.
   */
  lemma SplitCharacterMessageFails(kind: ErrorClass, fullCmd: string, err: Option<seq<byte>>, callArgs: Options)
    requires Out in callArgs && Err in callArgs
    ensures var b := Utf8Encode(seq(199, _ => 'a') + "\U{E9}");
      ErrorReturnCode(kind, fullCmd, Some(b), err, callArgs).Message().Failure?
  {
    TruncationSplitsE9();
  }

  /** Output that is not UTF-8 at all makes the message fail too, truncated or not. */
  lemma InvalidOutputMessageFails(kind: ErrorClass, fullCmd: string, err: Option<seq<byte>>, callArgs: Options)
    requires Out in callArgs && Err in callArgs
    requires err.Some? || NoteFormats(callArgs[Err])
    ensures ErrorReturnCode(kind, fullCmd, Some([0xFF]), err, callArgs).Message()
      == Failure(Undecodable([0xFF]))
  {
    DecodesIff([0xFF]);
  }

  /** Short captured streams that decode give a message. */
  lemma ShortStreamsGiveMessage(kind: ErrorClass, fullCmd: string, out: string, err: string, callArgs: Options)
    requires Out in callArgs && Err in callArgs
    requires |Utf8Encode(out)| <= TruncateCap && |Utf8Encode(err)| <= TruncateCap
    ensures ErrorReturnCode(kind, fullCmd, Some(Utf8Encode(out)), Some(Utf8Encode(err)), callArgs).Message().Success?
  {
    EncodedDecodes(out);
    EncodedDecodes(err);
  }
}
