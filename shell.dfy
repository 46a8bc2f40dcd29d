/**
 * One invocation of the shell script: the accumulators `output`, `results`,
 * `problems` and the countdown `sourcesToProcess`, the per-source step that
 * records a compiled statement or a compile problem, the countdown that fires
 * `writeOutput` once every source has been read, and `writeOutput` itself.
 *
 * Reading a file, the template compiler and writing the artifact are outside
 * the model: each read completion arrives as a `Completion` carrying the
 * compiler's outcome (`None` when it threw), and the text handed to
 * `fs.writeFile` is recorded in the field `written`.
 */
module JstShell {
  import opened JsText
  import opened Namespace
  import opened Composer

  /** One `[inputFile, filename]` pair of the source file mappings. */
  datatype Mapping = Mapping(inputFile: string, filename: string)

  datatype Files = Files(filesRead: seq<string>, filesWritten: seq<string>)

  /** `{source, result}`; a `None` result is the `null` of a failed compile. */
  datatype BuildResult = BuildResult(source: string, result: Option<Files>)

  datatype Problem = Problem(message: string, severity: string, source: string)

  /** The options the script reads; `interpolate` only configures the
      template compiler, whose outcome is given. */
  datatype Options = Options(namespace: string, amd: bool, prettify: bool, separator: string)

  /** A read callback that ran: the mapping and what compiling its contents gave. */
  datatype Completion = Completion(mapping: Mapping, compiled: Option<string>)

  /** The result recorded for one source. */
  function ResultFor(c: Completion, outputFile: string): (r: BuildResult)
    ensures r.source == c.mapping.inputFile
    ensures r.result.Some? <==> c.compiled.Some?
    ensures r.result.Some? ==> r.result.value.filesRead == [c.mapping.inputFile]
                               && r.result.value.filesWritten == [outputFile]
  {
    match c.compiled
    case Some(_) => BuildResult(c.mapping.inputFile, Some(Files([c.mapping.inputFile], [outputFile])))
    case None => BuildResult(c.mapping.inputFile, None)
  }

  /** The problem recorded for a source that failed to compile. */
  function CompileProblem(m: Mapping): (p: Problem)
    ensures p.severity == "error" && p.source == m.inputFile
    ensures p.message == m.inputFile + " failed to compile"
  {
    Problem(m.inputFile + " failed to compile", "error", m.inputFile)
  }

  /** The statement recorded for a source that compiled. */
  function Statement(c: Completion, options: Options): string
    requires c.compiled.Some?
  {
    Fragment(NamespaceExpr(options.namespace), c.mapping.filename, CompiledBody(c.compiled.value, options.prettify))
  }

  /** The statements one source adds to `output`: one when it compiled, none otherwise. */
  function StatementsFor(c: Completion, options: Options): (s: seq<string>)
    ensures |s| == (if c.compiled.Some? then 1 else 0)
  {
    if c.compiled.Some? then [Statement(c, options)] else []
  }

  /** The problems one source adds to `problems`: one when it failed, none otherwise. */
  function ProblemsFor(c: Completion): (s: seq<Problem>)
    ensures |s| == (if c.compiled.Some? then 0 else 1)
  {
    if c.compiled.Some? then [] else [CompileProblem(c.mapping)]
  }

  /** `results` after the given completions, in completion order. */
  function Results(cs: seq<Completion>, outputFile: string): seq<BuildResult>
  {
    if cs == [] then [] else Results(cs[..|cs| - 1], outputFile) + [ResultFor(cs[|cs| - 1], outputFile)]
  }

  /** `problems` after the given completions, in completion order. */
  function Problems(cs: seq<Completion>): seq<Problem>
  {
    if cs == [] then [] else Problems(cs[..|cs| - 1]) + ProblemsFor(cs[|cs| - 1])
  }

  /** `output` after the given completions and before `writeOutput`. */
  function Body(cs: seq<Completion>, options: Options): seq<string>
  {
    if cs == [] then [] else Body(cs[..|cs| - 1], options) + StatementsFor(cs[|cs| - 1], options)
  }

  /** The text written once every source has been processed. */
  function Artifact(options: Options, body: seq<string>): string
  {
    var ns := options.namespace;
    Join(Compose(Declaration(ns), body, NamespaceExpr(ns), options.amd, options.prettify), options.separator)
  }

  /** One result per source, in completion order. */
  lemma {:induction false} ResultsAt(cs: seq<Completion>, outputFile: string)
    ensures |Results(cs, outputFile)| == |cs|
    ensures forall i :: 0 <= i < |cs| ==> Results(cs, outputFile)[i] == ResultFor(cs[i], outputFile)
  {
    if cs != [] {
      var init := cs[..|cs| - 1];
      ResultsAt(init, outputFile);
      assert forall i :: 0 <= i < |init| ==> init[i] == cs[i];
    }
  }

  /** Each source yields exactly one of a statement or a problem. */
  lemma {:induction false} StatementOrProblem(cs: seq<Completion>, options: Options)
    ensures |Body(cs, options)| + |Problems(cs)| == |cs|
  {
    if cs != [] {
      StatementOrProblem(cs[..|cs| - 1], options);
    }
  }

  /** No problem is reported exactly when every source compiled. */
  lemma {:induction false} NoProblemsIffAllCompiled(cs: seq<Completion>)
    ensures Problems(cs) == [] <==> forall i :: 0 <= i < |cs| ==> cs[i].compiled.Some?
  {
    if cs != [] {
      var init := cs[..|cs| - 1];
      NoProblemsIffAllCompiled(init);
      assert forall i :: 0 <= i < |init| ==> init[i] == cs[i];
    }
  }

  /** When every source compiled, statement `i` is the one for source `i`. */
  lemma {:induction false} BodyOfCompiled(cs: seq<Completion>, options: Options)
    requires forall i :: 0 <= i < |cs| ==> cs[i].compiled.Some?
    ensures |Body(cs, options)| == |cs|
    ensures forall i :: 0 <= i < |cs| ==> Body(cs, options)[i] == Statement(cs[i], options)
  {
    if cs != [] {
      var init := cs[..|cs| - 1];
      assert forall i :: 0 <= i < |init| ==> init[i] == cs[i];
      BodyOfCompiled(init, options);
      assert Body(cs, options) == Body(init, options) + [Statement(cs[|cs| - 1], options)];
    }
  }

  /** In compact mode no statement of the body spans two lines. */
  lemma {:induction false} CompactBodyIsOneLinePerStatement(cs: seq<Completion>, options: Options)
    requires !options.prettify
    ensures forall i :: 0 <= i < |Body(cs, options)| ==> '\n' !in Body(cs, options)[i]
  {
    if cs != [] {
      var c := cs[|cs| - 1];
      CompactBodyIsOneLinePerStatement(cs[..|cs| - 1], options);
      if c.compiled.Some? {
        NamespaceIsOneLine(options.namespace);
        CompactFragmentIsOneLine(NamespaceExpr(options.namespace), c.mapping.filename, c.compiled.value);
        assert '\n' !in Statement(c, options);
      }
    }
  }

  /** For a name that needs no escaping the statement is the namespace, the
      name in quotes and brackets, ` = `, the body and a semicolon. */
  lemma PlainNameStatement(c: Completion, options: Options)
    requires c.compiled.Some?
    requires PlainName(c.mapping.filename)
    ensures Statement(c, options) ==
      NamespaceExpr(options.namespace) + "[\"" + c.mapping.filename + "\"] = "
      + CompiledBody(c.compiled.value, options.prettify) + ";"
  {
    QuotePlain(c.mapping.filename);
  }

  lemma TwoStatementArtifact(options: Options, fa: string, fb: string)
    requires !options.amd
    ensures Artifact(options, [fa, fb]) == Declaration(options.namespace) + options.separator + fa + options.separator + fb
  {
    PlainArtifactText(Declaration(options.namespace), [fa, fb], NamespaceExpr(options.namespace), options.prettify, options.separator);
    assert [fa, fb][1..] == [fb];
  }

  /** Two templates `a` and `b` that both compile: two successful results
      and no problem. */
  lemma TwoTemplatesReport(a: string, b: string)
    ensures var cs := [Completion(Mapping("/t/a.tpl", "a"), Some(a)), Completion(Mapping("/t/b.tpl", "b"), Some(b))];
      && Problems(cs) == []
      && Results(cs, "out.js") == [BuildResult("/t/a.tpl", Some(Files(["/t/a.tpl"], ["out.js"]))),
                                   BuildResult("/t/b.tpl", Some(Files(["/t/b.tpl"], ["out.js"])))]
  {
    var cs := [Completion(Mapping("/t/a.tpl", "a"), Some(a)), Completion(Mapping("/t/b.tpl", "b"), Some(b))];
    ResultsAt(cs, "out.js");
    NoProblemsIffAllCompiled(cs);
  }

  /** A name that `JSON.stringify` leaves as it is, between quotes. */
  ghost predicate PlainName(name: string)
  {
    forall i :: 0 <= i < |name| ==> name[i] as int >= 0x20 && name[i] != '"' && name[i] != '\\'
  }

  /** Two templates that both compile, without the AMD wrapper and in compact
      mode: the declaration followed by one statement per template, in
      completion order. With the namespace `App.Views`, AppViewsNamespace and
      AppViewsDeclaration give the namespace expression and the declaration. */
  lemma TwoTemplatesArtifact(options: Options, ma: Mapping, a: string, mb: Mapping, b: string)
    requires !options.amd && !options.prettify
    requires PlainName(ma.filename) && PlainName(mb.filename)
    ensures var cs := [Completion(ma, Some(a)), Completion(mb, Some(b))];
      var ns, sep := NamespaceExpr(options.namespace), options.separator;
      Artifact(options, Body(cs, options)) ==
        Declaration(options.namespace) + sep
        + (ns + "[\"" + ma.filename + "\"] = " + RemoveAll(a, '\n') + ";") + sep
        + (ns + "[\"" + mb.filename + "\"] = " + RemoveAll(b, '\n') + ";")
  {
    var ca, cb := Completion(ma, Some(a)), Completion(mb, Some(b));
    var cs := [ca, cb];
    BodyOfCompiled(cs, options);
    var fa, fb := Statement(ca, options), Statement(cb, options);
    assert Body(cs, options) == [fa, fb];
    TwoStatementArtifact(options, fa, fb);
    PlainNameStatement(ca, options);
    PlainNameStatement(cb, options);
  }

  class Invocation {
    const options: Options
    const outputFile: string
    const nsInfo: NsInfo
    /** `sourceFileMappings.length` */
    ghost const total: nat

    var sourcesToProcess: int
    var results: seq<BuildResult>
    var problems: seq<Problem>
    var output: seq<string>
    /** How many times `writeOutput` has run. */
    var writes: nat
    /** The text handed to `fs.writeFile`, once `writeOutput` has run. */
    var written: Option<string>

    /** The invariant, with `pending` sources recorded but not yet counted down. */
    ghost predicate Counted(pending: int)
      reads this
    {
      && nsInfo == NsInfo(NamespaceExpr(options.namespace), Declaration(options.namespace))
      && sourcesToProcess + |results| == total + pending
      && sourcesToProcess <= total
      && writes == (if total > 0 && sourcesToProcess <= 0 then 1 else 0)
      && (written.Some? <==> writes == 1)
    }

    ghost predicate Valid()
      reads this
    {
      Counted(0)
    }

    constructor (mappingCount: nat, options: Options, outputFile: string)
      ensures Valid()
      ensures this.options == options && this.outputFile == outputFile && total == mappingCount
      ensures sourcesToProcess == mappingCount
      ensures results == [] && problems == [] && output == []
      ensures writes == 0 && written == None
    {
      var info := GetNamespaceDeclaration(options.namespace);
      this.options := options;
      this.outputFile := outputFile;
      nsInfo := info;
      total := mappingCount;
      sourcesToProcess := mappingCount;
      results, problems, output := [], [], [];
      writes, written := 0, None;
    }

    /** The body of one read callback: compile, record, count down. */
    method ProcessSource(c: Completion)
      requires Valid()
      modifies this
      ensures Valid()
      ensures results == old(results) + [ResultFor(c, outputFile)]
      ensures problems == old(problems) + ProblemsFor(c)
      ensures sourcesToProcess == old(sourcesToProcess) - 1
      ensures var grown := old(output) + StatementsFor(c, options);
        if old(sourcesToProcess) == 1 then
          && output == Compose(nsInfo.declaration, grown, nsInfo.namespace, options.amd, options.prettify)
          && written == Some(Join(output, options.separator))
          && writes == old(writes) + 1
        else
          output == grown && written == old(written) && writes == old(writes)
    {
      var inputFile := c.mapping.inputFile;
      var filename := c.mapping.filename;
      match c.compiled {
        case Some(source) =>
          var compiled := source;
          if !options.prettify {
            compiled := RemoveAll(compiled, '\n');
          }
          assert compiled == CompiledBody(source, options.prettify);
          output := output + [nsInfo.namespace + "[" + Quote(filename) + "] = " + compiled + ";"];
          assert output == old(output) + StatementsFor(c, options);
          results := results + [BuildResult(inputFile, Some(Files([inputFile], [outputFile])))];
        case None =>
          problems := problems + [Problem(inputFile + " failed to compile", "error", inputFile)];
          results := results + [BuildResult(inputFile, None)];
          assert output == old(output) + StatementsFor(c, options);
      }
      ParseDone();
    }

    /** `parseDone`: count one source down and write once none is left. */
    method ParseDone()
      requires Counted(1)
      modifies this
      ensures Valid()
      ensures sourcesToProcess == old(sourcesToProcess) - 1
      ensures results == old(results) && problems == old(problems)
      ensures if old(sourcesToProcess) == 1 then
          && output == Compose(nsInfo.declaration, old(output), nsInfo.namespace, options.amd, options.prettify)
          && written == Some(Join(output, options.separator))
          && writes == old(writes) + 1
        else
          output == old(output) && written == old(written) && writes == old(writes)
    {
      sourcesToProcess := sourcesToProcess - 1;
      if sourcesToProcess == 0 {
        WriteOutput();
      }
    }

    /** `writeOutput`: put the declaration in front, wrap and indent for AMD,
        and hand the lines joined by the separator to the file writer. */
    method WriteOutput()
      modifies this
      ensures output == Compose(nsInfo.declaration, old(output), nsInfo.namespace, options.amd, options.prettify)
      ensures written == Some(Join(output, options.separator))
      ensures writes == old(writes) + 1
      ensures sourcesToProcess == old(sourcesToProcess)
      ensures results == old(results) && problems == old(problems)
    {
      output := [nsInfo.declaration] + output;
      if options.amd {
        if options.prettify {
          ghost var lines := output;
          var index := 0;
          while index < |output|
            invariant 0 <= index <= |output| == |lines|
            invariant forall j :: 0 <= j < index ==> output[j] == Indentation + lines[j]
            invariant forall j :: index <= j < |output| ==> output[j] == lines[j]
            invariant sourcesToProcess == old(sourcesToProcess)
            invariant results == old(results) && problems == old(problems) && writes == old(writes)
          {
            output := output[index := "  " + output[index]];
            index := index + 1;
          }
          forall j | 0 <= j < |lines| ensures output[j] == Indent(lines)[j] {
            IndentAt(lines, j);
          }
        }
        output := [DefineOpen] + output;
        output := output + [ReturnLine(nsInfo.namespace)];
        output := output + [DefineClose];
      }
      written := Some(Join(output, options.separator));
      writes := writes + 1;
    }
  }

  /** The whole script for the given read completions, taken in the order
      their callbacks ran (one per mapping): the reported results and
      problems, and the text written, which is written exactly once when
      there is at least one mapping and never otherwise. */
  method Run(completions: seq<Completion>, options: Options, outputFile: string)
    returns (written: Option<string>, writes: nat, results: seq<BuildResult>, problems: seq<Problem>)
    ensures results == Results(completions, outputFile)
    ensures problems == Problems(completions)
    ensures writes == (if completions == [] then 0 else 1)
    ensures written == (if completions == [] then None else Some(Artifact(options, Body(completions, options))))
  {
    var n := |completions|;
    var inv := new Invocation(n, options, outputFile);
    var i := 0;
    while i < n
      invariant 0 <= i <= n
      invariant inv.Valid()
      invariant inv.options == options && inv.outputFile == outputFile && inv.total == n
      invariant inv.sourcesToProcess == n - i
      invariant inv.results == Results(completions[..i], outputFile)
      invariant inv.problems == Problems(completions[..i])
      invariant i < n ==> inv.output == Body(completions[..i], options)
      invariant i < n ==> inv.writes == 0 && inv.written == None
      invariant i == n && n > 0 ==>
        inv.writes == 1 && inv.written == Some(Artifact(options, Body(completions, options)))
    {
      assert completions[..i + 1][..i] == completions[..i];
      inv.ProcessSource(completions[i]);
      i := i + 1;
      if i == n {
        assert completions[..i] == completions;
      }
    }
    assert completions[..i] == completions;
    written, writes, results, problems := inv.written, inv.writes, inv.results, inv.problems;
  }
}
