/** The flat `KEY=VALUE` ("Sage") text parser and the reference-selection step
    of the Sage conversion pipeline (src/handlers/sage_handler.py). */
module SageHandler {
  import opened Wrappers
  import opened PyStr

  /** One error per exception the pipeline can raise. */
  datatype SageError =
    | IndexError                               // a kept line has no '=', so `i[1]` is out of range
    | ConvertStrToDictError(message: string)   // the reference text is not a mapping
    | CoercionError(message: string)           // the type-coercion helper raised ValueError

  /** The reference mapping argument: either a mapping already, or its text. */
  datatype Example<D> = ExampleDict(dict: D) | ExampleText(text: string)

  // ---------------------------------------------------------------------
  // Specification of `convert_sage_vars_string_to_dict`
  // ---------------------------------------------------------------------

  /** The lines kept by the first loop, in order: each input line stripped,
      and dropped when nothing is left. */
  function RetainedLines(lines: seq<string>): (kept: seq<string>)
    ensures |kept| <= |lines|
  {
    if lines == [] then []
    else
      var init := RetainedLines(lines[..|lines| - 1]);
      var s := Strip(lines[|lines| - 1]);
      if |s| > 0 then init + [s] else init
  }

  /** The second loop: every kept line split on every '='. */
  function SplitAll(lines: seq<string>): (pieces: seq<seq<string>>)
    ensures |pieces| == |lines|
    ensures forall i {:trigger pieces[i]} :: 0 <= i < |lines| ==> pieces[i] == Split(lines[i], '=')
  {
    if lines == [] then []
    else SplitAll(lines[..|lines| - 1]) + [Split(lines[|lines| - 1], '=')]
  }

  /** The third loop: for each piece list in order, the stripped first piece
      maps to the stripped second piece; the first list with fewer than two
      pieces fails. */
  function Entries(pieces: seq<seq<string>>): (r: Result<map<string, string>, SageError>)
    ensures r.Failure? ==> r.error == IndexError
  {
    if pieces == [] then Success(map[])
    else
      match Entries(pieces[..|pieces| - 1])
      case Failure(e) => Failure(e)
      case Success(m) =>
        var kv := pieces[|pieces| - 1];
        if |kv| < 2 then Failure(IndexError)
        else Success(m[Strip(kv[0]) := Strip(kv[1])])
  }

  /** The whole parse, as a function of the input text. */
  function SageVars(text: string): Result<map<string, string>, SageError> {
    Entries(SplitAll(RetainedLines(Split(text, '\n'))))
  }

  /** The key a kept line contributes: the stripped first piece of the line. */
  function KeyOf(line: string): string {
    Strip(Split(line, '=')[0])
  }

  /** The value a kept line contributes: the stripped second piece of the line. */
  function ValueOf(line: string): string
    requires Contains(line, '=')
  {
    SplitPieces(line, '=');
    Strip(Split(line, '=')[1])
  }

  /** The key is the stripped text before the line's first '=' (the whole line
      when it has none), and the value is the stripped text between its first
      and its second '=': anything from a second '=' on is lost. */
  lemma KeyValueOfLine(line: string)
    ensures Contains(line, '=') ==> KeyOf(line) == Strip(line[..Find(line, '=')])
    ensures !Contains(line, '=') ==> KeyOf(line) == Strip(line)
    ensures Contains(line, '=') ==> ValueOf(line) == Strip(Between(line, '='))
  {
    SplitFirstPieces(line, '=');
    assert line[..|line|] == line;
  }

  // ---------------------------------------------------------------------
  // The source's three loops
  // ---------------------------------------------------------------------

  /** `convert_sage_vars_string_to_dict`: strip and filter the lines, split
      each on '=', then fill the result mapping line by line. */
  method ConvertSageVarsStringToDict(text: string) returns (r: Result<map<string, string>, SageError>)
    ensures r == SageVars(text)
  {
    var strings := KeepNonBlankLines(Split(text, '\n'));
    var keysAndValues := SplitLinesOnEquals(strings);
    r := FillEntries(keysAndValues);
  }

  /** The first loop: keep every line's stripped form unless it is empty. */
  method KeepNonBlankLines(lines: seq<string>) returns (strings: seq<string>)
    ensures strings == RetainedLines(lines)
  {
    strings := [];
    var i := 0;
    while i < |lines|
      invariant 0 <= i <= |lines|
      invariant strings == RetainedLines(lines[..i])
    {
      var stripString := Strip(lines[i]);
      RetainedLinesStep(lines, i);
      if |stripString| > 0 {
        strings := strings + [stripString];
      }
      i := i + 1;
    }
    assert lines[..|lines|] == lines;
  }

  /** The second loop: split every kept line on '='. */
  method SplitLinesOnEquals(strings: seq<string>) returns (keysAndValues: seq<seq<string>>)
    ensures keysAndValues == SplitAll(strings)
  {
    keysAndValues := [];
    var i := 0;
    while i < |strings|
      invariant 0 <= i <= |strings|
      invariant keysAndValues == SplitAll(strings[..i])
    {
      SplitAllStep(strings, i);
      keysAndValues := keysAndValues + [Split(strings[i], '=')];
      i := i + 1;
    }
    assert strings[..|strings|] == strings;
  }

  /** The third loop: store each stripped key and value; a piece list with no
      second element is the source's `IndexError`. */
  method FillEntries(keysAndValues: seq<seq<string>>) returns (r: Result<map<string, string>, SageError>)
    ensures r == Entries(keysAndValues)
  {
    var result: map<string, string> := map[];
    var i := 0;
    while i < |keysAndValues|
      invariant 0 <= i <= |keysAndValues|
      invariant Entries(keysAndValues[..i]) == Success(result)
    {
      var kv := keysAndValues[i];
      EntriesStep(keysAndValues, i);
      if |kv| < 2 {
        EntriesFailureSticks(keysAndValues, i + 1);
        return Failure(IndexError);
      }
      result := result[Strip(kv[0]) := Strip(kv[1])];
      i := i + 1;
    }
    assert keysAndValues[..|keysAndValues|] == keysAndValues;
    r := Success(result);
  }

  lemma RetainedLinesStep(lines: seq<string>, i: nat)
    requires i < |lines|
    ensures RetainedLines(lines[..i + 1]) ==
      RetainedLines(lines[..i]) + (if |Strip(lines[i])| > 0 then [Strip(lines[i])] else [])
  {
    assert lines[..i + 1][..i] == lines[..i];
  }

  lemma SplitAllStep(lines: seq<string>, i: nat)
    requires i < |lines|
    ensures SplitAll(lines[..i + 1]) == SplitAll(lines[..i]) + [Split(lines[i], '=')]
  {
    assert lines[..i + 1][..i] == lines[..i];
  }

  lemma EntriesStep(pieces: seq<seq<string>>, i: nat)
    requires i < |pieces|
    requires Entries(pieces[..i]).Success?
    ensures Entries(pieces[..i + 1]) ==
      if |pieces[i]| < 2 then Failure(IndexError)
      else Success(Entries(pieces[..i]).value[Strip(pieces[i][0]) := Strip(pieces[i][1])])
  {
    assert pieces[..i + 1][..i] == pieces[..i];
  }

  // ---------------------------------------------------------------------
  // Properties of the parse
  // ---------------------------------------------------------------------

  /** Once a prefix fails, the whole parse fails. */
  lemma {:induction false} EntriesFailureSticks(pieces: seq<seq<string>>, n: nat)
    requires n <= |pieces|
    requires Entries(pieces[..n]).Failure?
    ensures Entries(pieces).Failure?
    decreases |pieces| - n
  {
    if n < |pieces| {
      assert pieces[..n + 1][..n] == pieces[..n];
      EntriesFailureSticks(pieces, n + 1);
    } else {
      assert pieces[..n] == pieces;
    }
  }

  /** Keeping lines distributes over concatenation of the input lines. */
  lemma {:induction false} RetainedLinesAppend(a: seq<string>, b: seq<string>)
    ensures RetainedLines(a + b) == RetainedLines(a) + RetainedLines(b)
    decreases |b|
  {
    if b == [] {
      assert a + b == a;
    } else {
      var b' := b[..|b| - 1];
      assert (a + b)[..|a + b| - 1] == a + b';
      assert (a + b)[|a + b| - 1] == b[|b| - 1];
      RetainedLinesAppend(a, b');
    }
  }

  /** A line that is empty or whitespace-only contributes nothing: removing it
      from the input leaves the kept lines, and so the result, unchanged. */
  lemma BlankLineIgnored(a: seq<string>, blank: string, b: seq<string>)
    requires AllSpace(blank)
    ensures RetainedLines(a + [blank] + b) == RetainedLines(a + b)
    ensures Entries(SplitAll(RetainedLines(a + [blank] + b))) == Entries(SplitAll(RetainedLines(a + b)))
  {
    RetainedLinesAppend(a + [blank], b);
    RetainedLinesAppend(a, [blank]);
    RetainedLinesAppend(a, b);
    assert RetainedLines([blank]) == [] by {
      StripEmptyIff(blank);
      assert [blank][..0] == [];
    }
  }

  /** A text made only of blank lines parses to the empty mapping. */
  lemma {:induction false} BlankOnlyIsEmpty(lines: seq<string>)
    requires forall i :: 0 <= i < |lines| ==> AllSpace(lines[i])
    ensures RetainedLines(lines) == []
    ensures Entries(SplitAll(RetainedLines(lines))) == Success(map[])
  {
    if lines != [] {
      StripEmptyIff(lines[|lines| - 1]);
      BlankOnlyIsEmpty(lines[..|lines| - 1]);
    }
  }

  /** Every kept line is the stripped form of a non-blank input line, and every
      non-blank input line is kept. */
  lemma {:induction false} RetainedLinesMembers(lines: seq<string>)
    ensures forall s :: s in RetainedLines(lines) ==>
      exists j :: 0 <= j < |lines| && !AllSpace(lines[j]) && s == Strip(lines[j])
    ensures forall j :: 0 <= j < |lines| && !AllSpace(lines[j]) ==> Strip(lines[j]) in RetainedLines(lines)
  {
    if lines != [] {
      var n := |lines| - 1;
      var init := lines[..n];
      RetainedLinesMembers(init);
      var last := Strip(lines[n]);
      StripEmptyIff(lines[n]);
      assert RetainedLines(lines) == RetainedLines(init) + (if |last| > 0 then [last] else []);
      forall s | s in RetainedLines(lines)
        ensures exists j :: 0 <= j < |lines| && !AllSpace(lines[j]) && s == Strip(lines[j])
      {
        if s in RetainedLines(init) {
          var j :| 0 <= j < |init| && !AllSpace(init[j]) && s == Strip(init[j]);
          assert lines[j] == init[j];
        } else {
          assert s == last && !AllSpace(lines[n]);
        }
      }
      forall j | 0 <= j < |lines| && !AllSpace(lines[j]) ensures Strip(lines[j]) in RetainedLines(lines) {
        if j != n {
          assert lines[j] == init[j];
        }
      }
    }
  }

  /** The parse fails exactly when some kept line has no '='; such a line is
      an error, it is not skipped. */
  lemma {:induction false} EntriesFailsIff(lines: seq<string>)
    ensures Entries(SplitAll(lines)).Failure? <==> exists i :: 0 <= i < |lines| && !Contains(lines[i], '=')
  {
    if lines != [] {
      var n := |lines| - 1;
      var init := lines[..n];
      assert SplitAll(lines)[..n] == SplitAll(init);
      assert SplitAll(lines)[n] == Split(lines[n], '=');
      SplitPieces(lines[n], '=');
      EntriesFailsIff(init);
      if Entries(SplitAll(lines)).Failure? {
        if Entries(SplitAll(init)).Failure? {
          var i :| 0 <= i < n && !Contains(init[i], '=');
          assert lines[i] == init[i];
        } else {
          assert !Contains(lines[n], '=');
        }
      } else {
        assert Entries(SplitAll(init)).Success? && |Split(lines[n], '=')| >= 2;
        assert Contains(lines[n], '=');
        forall i | 0 <= i < |lines| ensures Contains(lines[i], '=') {
          if i != n {
            assert lines[i] == init[i];
            assert Contains(init[i], '=');
          }
        }
      }
    }
  }

  /** The keys of the kept lines, as a set. */
  function KeysOf(lines: seq<string>): set<string> {
    Image(lines, KeyOf)
  }

  /** The set of `f` applied to every element of `xs`. */
  function Image<A, B>(xs: seq<A>, f: A -> B): set<B> {
    set i | 0 <= i < |xs| :: f(xs[i])
  }

  lemma ImageSnoc<A, B>(xs: seq<A>, f: A -> B)
    requires xs != []
    ensures Image(xs, f) == Image(xs[..|xs| - 1], f) + {f(xs[|xs| - 1])}
  {
    var init := xs[..|xs| - 1];
    forall y | y in Image(xs, f) ensures y in Image(init, f) + {f(xs[|xs| - 1])} {
      var i :| 0 <= i < |xs| && y == f(xs[i]);
      if i < |init| {
        assert init[i] == xs[i];
      }
    }
    forall y | y in Image(init, f) ensures y in Image(xs, f) {
      var i :| 0 <= i < |init| && y == f(init[i]);
      assert init[i] == xs[i];
    }
  }

  /** The keys of a successful parse are exactly the keys of the kept lines. */
  lemma {:induction false} EntriesKeys(lines: seq<string>)
    requires Entries(SplitAll(lines)).Success?
    ensures Entries(SplitAll(lines)).value.Keys == KeysOf(lines)
  {
    if lines != [] {
      var n := |lines| - 1;
      var init := lines[..n];
      assert SplitAll(lines)[..n] == SplitAll(init);
      assert SplitAll(lines)[n] == Split(lines[n], '=');
      EntriesKeys(init);
      ImageSnoc(lines, KeyOf);
    }
  }

  /** Among kept lines with the same key, the last one's value is returned. */
  lemma {:induction false} EntriesLastWins(lines: seq<string>, i: nat)
    requires Entries(SplitAll(lines)).Success?
    requires i < |lines|
    requires forall j :: i < j < |lines| ==> KeyOf(lines[j]) != KeyOf(lines[i])
    ensures Contains(lines[i], '=')
    ensures KeyOf(lines[i]) in Entries(SplitAll(lines)).value
    ensures Entries(SplitAll(lines)).value[KeyOf(lines[i])] == ValueOf(lines[i])
  {
    var n := |lines| - 1;
    var init := lines[..n];
    var last := lines[n];
    var pieces := SplitAll(lines);
    var kv := pieces[n];
    assert pieces[..n] == SplitAll(init);
    assert kv == Split(last, '=');
    SplitPieces(last, '=');
    var m := Entries(SplitAll(init)).value;
    assert Entries(pieces) == Success(m[KeyOf(last) := ValueOf(last)]);
    if i == n {
      assert lines[i] == last;
    } else {
      assert init[i] == lines[i];
      forall j | i < j < |init| ensures KeyOf(init[j]) != KeyOf(init[i]) {
        assert init[j] == lines[j];
      }
      EntriesLastWins(init, i);
    }
  }

  // ---------------------------------------------------------------------
  // `convert_sage_str_to_dict_with_correcting_types`
  // ---------------------------------------------------------------------

  /** The reference-mapping choice: a mapping is used as it is, a
      whitespace-only text selects the default root mapping, and any other
      text is parsed into the reference. */
  function SelectReference<D>(
    example: Example<D>,
    getRootJsonAsDict: () -> D,
    convertStringToDict: string -> Result<D, string>
  ): (r: Result<D, SageError>)
    ensures example.ExampleDict? ==> r == Success(example.dict)
    ensures example.ExampleText? && AllSpace(example.text) ==> r == Success(getRootJsonAsDict())
    ensures example.ExampleText? && !AllSpace(example.text) ==>
      (r.Success? <==> convertStringToDict(example.text).Success?) &&
      (r.Success? ==> r.value == convertStringToDict(example.text).value) &&
      (r.Failure? ==> r.error == ConvertStrToDictError(convertStringToDict(example.text).error))
  {
    match example
    case ExampleDict(d) => Success(d)
    case ExampleText(s) =>
      StripEmptyIff(s);
      if Strip(s) == "" then Success(getRootJsonAsDict())
      else
        match convertStringToDict(s)
        case Success(d) => Success(d)
        case Failure(msg) => Failure(ConvertStrToDictError(msg))
  }

  /** The whole Sage conversion: parse the flat text, choose the reference,
      coerce the values after it and render the result. The coercion and
      export helpers are parameters: their behaviour is not part of this model. */
  function ConvertSageStrToDictWithCorrectingTypes<D, T>(
    sageStr: string,
    example: Example<D>,
    getRootJsonAsDict: () -> D,
    convertStringToDict: string -> Result<D, string>,
    fixDictValuesType: (map<string, string>, D) -> Result<T, string>,
    correctDictToExport: T -> string
  ): (r: Result<string, SageError>)
    ensures SageVars(sageStr).Failure? ==> r == Failure(IndexError)
    ensures SageVars(sageStr).Success? && example.ExampleText? && AllSpace(example.text) ==>
      var fixed := fixDictValuesType(SageVars(sageStr).value, getRootJsonAsDict());
      r == if fixed.Success? then Success(correctDictToExport(fixed.value)) else Failure(CoercionError(fixed.error))
    ensures SageVars(sageStr).Success? ==>
      r == match SelectReference(example, getRootJsonAsDict, convertStringToDict)
           case Failure(e) => Failure(e)
           case Success(reference) =>
             match fixDictValuesType(SageVars(sageStr).value, reference)
             case Failure(msg) => Failure(CoercionError(msg))
             case Success(fixed) => Success(correctDictToExport(fixed))
    ensures r.Success? ==>
      var reference := SelectReference(example, getRootJsonAsDict, convertStringToDict);
      && SageVars(sageStr).Success? && reference.Success?
      && fixDictValuesType(SageVars(sageStr).value, reference.value).Success?
      && r.value == correctDictToExport(fixDictValuesType(SageVars(sageStr).value, reference.value).value)
  {
    var result :- SageVars(sageStr);
    var reference :- SelectReference(example, getRootJsonAsDict, convertStringToDict);
    match fixDictValuesType(result, reference)
    case Failure(msg) => Failure(CoercionError(msg))
    case Success(fixed) => Success(correctDictToExport(fixed))
  }
}
