# sbt-jst shell script, modelled in Dafny

The sbt-jst plugin compiles Underscore templates into one JavaScript file by
running the Node script `src/main/resources/jst-shell.js`. The script:

- takes a list of `[inputFile, filename]` mappings, a target directory and options;
- turns the dotted `namespace` option into an access expression
  (`this["App"]["Views"]`) and a declaration that initialises each level if it
  is missing;
- reads and compiles every source, then records for each one either a
  statement `ns["filename"] = <compiled>;` or a "failed to compile" problem,
  and always one build result;
- counts the outstanding sources down, and once none is left, writes the
  declaration and the statements, wrapped as an AMD module on request and
  joined by the configured separator.

This project models that script:

- `text.dfy`, module `JsText`: the JavaScript primitives the script uses.
  These are `split` with a one-character separator, `Array.prototype.join`,
  the global newline `replace`, and `JSON.stringify` of a string (`Quote`,
  with the escapes ECMAScript's QuoteJSONString uses). A decoder proves
  nothing is lost.
- `namespace.dfy`, module `Namespace`: `getNamespaceDeclaration`. It is a
  loop method proved against the functions `NamespaceExpr` and `Declaration`,
  with lemmas saying what those are. The path is `this` followed by one
  `[Quote(seg)]` per segment other than `this`. The declaration has one
  `P = P || {};` line per such segment, with `P` the cumulative prefix.
- `composer.dfy`, module `Composer`: the statement built for a compiled
  source, and the line sequence `writeOutput` produces (`Compose`). A
  `Decompose` inverse shows the composition loses nothing. Lemmas give the
  text that is written.
- `shell.dfy`, module `JstShell`: the script's module-level accumulators as
  the class `Invocation`, with fields `output`, `results`, `problems` and
  `sourcesToProcess`. Its methods are the per-source callback body
  (`ProcessSource`), `parseDone` and `writeOutput`. `Run` drives one
  invocation over the read completions, taken in the order their callbacks
  ran.

`Run` proves the end-to-end behaviour:

- one result per source, in completion order;
- one problem per failed compile;
- the artifact is written exactly once, right after the last source, when
  there is at least one mapping, and never when there is none.

In the script, the status line is printed only after that write, so with no
mapping it is never printed. Printing is not modelled (see "Left out").

A few facts about what the script does:

- `options.separator` is used exactly as given. No newline default is
  supplied.
- The declaration lines carry spaces around `=` and `||`.
- Compact mode removes only `\n` characters. Other whitespace is kept.
- A failed compile does not stop the write. The artifact is still written,
  without that source's statement.
- With AMD and pretty output, each line of `output` gets two spaces.
  Newlines inside a compiled body are not re-indented.
- There is no lock, no merge with an existing artifact, and no compression.

## Model

| member | source | states |
|---|---|---|
| `JsText.Split` | src/main/resources/jst-shell.js:43 | `ns.split('.')` gives at least one part and no part contains the separator |
| `JsText.Join` | src/main/resources/jst-shell.js:53 | `join` of a non-empty array starts with its first element |
| `JsText.JoinSplit` | src/main/resources/jst-shell.js:43 | joining the parts of a split with the same separator gives back the string |
| `JsText.SplitJoin` | src/main/resources/jst-shell.js:53 | splitting a join of separator-free parts gives back exactly those parts |
| `JsText.JoinSnoc` | src/main/resources/jst-shell.js:91 | joining with one more element appends the separator and that element |
| `JsText.JoinAppend` | src/main/resources/jst-shell.js:91 | joining two non-empty arrays is the two joins with one separator between |
| `JsText.JoinNoChar` | src/main/resources/jst-shell.js:53 | a join contains no character absent from the separator and the parts |
| `JsText.RemoveAll` | src/main/resources/jst-shell.js:122 | `replace(/\n/g, '')` leaves no newline, keeps every other character with its multiplicity, and leaves newline-free text unchanged (order: `RemoveAllAppend`, `RemoveAllKeepsOrder`) |
| `JsText.RemoveAllAppend` | src/main/resources/jst-shell.js:122 | removing newlines from `a + b` gives the result for `a` followed by the result for `b`, so the kept characters keep their order |
| `JsText.RemoveAllOne` | src/main/resources/jst-shell.js:122 | a single newline is removed and any other single character is kept |
| `JsText.RemoveAllKeepsOrder` | src/main/resources/jst-shell.js:122 | every character other than a newline reappears in the result at the position given by the kept characters before it |
| `JsText.EscapeChar` | src/main/resources/jst-shell.js:46 | a character is escaped (starts with a backslash) exactly when it is a quote, a backslash or a control character; otherwise it stands for itself |
| `JsText.Escape` | src/main/resources/jst-shell.js:46 | escaping never shortens a string |
| `JsText.QuoteShape` | src/main/resources/jst-shell.js:46 | `JSON.stringify(s)` is enclosed in double quotes and contains no control character, so no newline |
| `JsText.QuotePlain` | src/main/resources/jst-shell.js:125 | a name without quotes, backslashes or control characters is quoted verbatim |
| `JsText.UnquoteQuote` | src/main/resources/jst-shell.js:46 | decoding the quoted string gives back the original |
| `JsText.QuoteInjective` | src/main/resources/jst-shell.js:125 | distinct names give distinct quoted keys |
| `Namespace.GetNamespaceDeclaration` | src/main/resources/jst-shell.js:38-56 | the loop returns exactly `NamespaceExpr(ns)` and `Declaration(ns)` |
| `Namespace.Kept` | src/main/resources/jst-shell.js:45 | the kept segments never include `this` and are no more than the parts |
| `Namespace.KeptAppend` | src/main/resources/jst-shell.js:44-45 | filtering out `this` distributes over concatenation, so order is kept |
| `Namespace.KeptWithoutRoot` | src/main/resources/jst-shell.js:45 | without a `this` segment every segment is kept |
| `Namespace.KeptSingle` | src/main/resources/jst-shell.js:45 | a single segment is kept exactly when it is not `this` |
| `Namespace.LinesOf` | src/main/resources/jst-shell.js:44-49 | one declaration line per kept segment |
| `Namespace.PathIsRootThenAccessors` | src/main/resources/jst-shell.js:41-46 | the namespace path is `this` followed by `[Quote(seg)]` for each kept segment, in order |
| `Namespace.LineIsCumulativePrefix` | src/main/resources/jst-shell.js:46-47 | line `i` is the initialise-if-absent line for `P`, the path of the first `i + 1` kept segments |
| `Namespace.LinesHaveNoNewline` | src/main/resources/jst-shell.js:47 | no declaration line contains a newline |
| `Namespace.AccessorsHaveNoNewline` | src/main/resources/jst-shell.js:46 | the accessors of a path contain no newline |
| `Namespace.RootNamespace` | src/main/resources/jst-shell.js:41-54 | the namespace `this` gives the expression `this` and the empty declaration |
| `Namespace.RootGuardIsRedundant` | src/main/resources/jst-shell.js:42-43 | the `ns !== 'this'` guard changes nothing: splitting `this` keeps no segment |
| `Namespace.DeclarationLines` | src/main/resources/jst-shell.js:43-53 | for every namespace the declaration is empty iff no segment is kept, and otherwise splits at newlines into exactly its lines |
| `Namespace.NamespaceIsOneLine` | src/main/resources/jst-shell.js:41-46 | the namespace expression contains no newline |
| `Namespace.AppViewsNamespace` | src/main/resources/jst-shell.js:38-56 | `App.Views` is accessed as `this["App"]["Views"]` |
| `Namespace.AppViewsDeclaration` | src/main/resources/jst-shell.js:38-56 | `App.Views` declares `this["App"]` and then `this["App"]["Views"]`, joined by a newline |
| `Composer.CompiledBody` | src/main/resources/jst-shell.js:121-123 | without `prettify` the body has no newline and otherwise the characters of the compiled source; with it, or when there was no newline, the source is kept as is (order: `CompactBodyKeepsOrder`) |
| `Composer.CompactBodyKeepsOrder` | src/main/resources/jst-shell.js:121-123 | in compact mode the body of `a + b` is the body of `a` followed by the body of `b`, and a single character other than a newline is kept, so the compiled text keeps its order |
| `Composer.CompactFragmentIsOneLine` | src/main/resources/jst-shell.js:121-125 | in compact mode a statement is a single physical line |
| `Composer.FragmentShape` | src/main/resources/jst-shell.js:125 | a statement starts with the namespace and `["`, ends with `;`, and has the summed length of its parts |
| `Composer.Indent` | src/main/resources/jst-shell.js:80-82 | indenting keeps the number of lines |
| `Composer.IndentAt` | src/main/resources/jst-shell.js:81 | every indented line is two spaces followed by the original line |
| `Composer.ComposeShape` | src/main/resources/jst-shell.js:76-86 | without `amd`: the declaration and then the body; with `amd`: `define(function(){`, then the declaration and the body each prefixed with two spaces iff `prettify`, then `  return ns;` and `});`, so the body count plus 4 lines |
| `Composer.UnindentIndent` | src/main/resources/jst-shell.js:80-82 | the indentation can be removed again |
| `Composer.ComposeDecompose` | src/main/resources/jst-shell.js:76-86 | the declaration and the body can be recovered from the composed lines |
| `Composer.ComposeInjective` | src/main/resources/jst-shell.js:76-86 | with the same options, two compositions are equal only if their declarations and bodies are |
| `Composer.PlainArtifactText` | src/main/resources/jst-shell.js:76-91 | without `amd` the written text is the declaration followed by the separator-joined statements (each after a separator) |
| `Composer.ModuleArtifactText` | src/main/resources/jst-shell.js:78-91 | with `amd` the written text is the opening line, the joined interior, the return line and the closing line, separated by the separator |
| `JstShell.ResultFor` | src/main/resources/jst-shell.js:127-146 | a result names its input file; it is non-null iff the source compiled, and then reads `[inputFile]` and writes `[outputFile]` |
| `JstShell.CompileProblem` | src/main/resources/jst-shell.js:137-141 | a compile problem has severity `error`, the input file as source and the message `inputFile + " failed to compile"` |
| `JstShell.StatementsFor` | src/main/resources/jst-shell.js:125 | a source adds one statement if it compiled and none otherwise |
| `JstShell.ProblemsFor` | src/main/resources/jst-shell.js:137-141 | a source adds one problem if it failed and none otherwise |
| `JstShell.ResultsAt` | src/main/resources/jst-shell.js:100-148 | there is exactly one result per source, in completion order |
| `JstShell.StatementOrProblem` | src/main/resources/jst-shell.js:109-148 | each source gives exactly one of a statement and a problem |
| `JstShell.NoProblemsIffAllCompiled` | src/main/resources/jst-shell.js:135-141 | no problem is reported iff every source compiled |
| `JstShell.BodyOfCompiled` | src/main/resources/jst-shell.js:100-125 | when every source compiled, statement `i` is the one for source `i` |
| `JstShell.CompactBodyIsOneLinePerStatement` | src/main/resources/jst-shell.js:121-125 | in compact mode no statement of the body contains a newline |
| `JstShell.PlainNameStatement` | src/main/resources/jst-shell.js:125 | for a name needing no escape the statement is `ns["name"] = body;` |
| `JstShell.TwoStatementArtifact` | src/main/resources/jst-shell.js:76-91 | without `amd`, two statements are written as declaration, separator, first, separator, second |
| `JstShell.TwoTemplatesReport` | src/main/resources/jst-shell.js:100-148 | two templates that compile give two successful results and no problem |
| `JstShell.TwoTemplatesArtifact` | src/main/resources/jst-shell.js:74-125 | two compiled templates, compact and without `amd`, are written as the declaration and then one statement per template, in order |
| `JstShell.Invocation.constructor` | src/main/resources/jst-shell.js:31-36 | the counter starts at the number of mappings; the accumulators start empty; the namespace info comes from `getNamespaceDeclaration` |
| `JstShell.Invocation.ProcessSource` | src/main/resources/jst-shell.js:100-152 | appends exactly one result; on success one statement and no problem; on failure one problem and no statement; counts down; writes exactly when the counter was 1 |
| `JstShell.Invocation.ParseDone` | src/main/resources/jst-shell.js:58-61 | decrements the counter and runs `writeOutput` exactly when it reaches 0 |
| `JstShell.Invocation.WriteOutput` | src/main/resources/jst-shell.js:74-98 | `output` becomes `Compose` of the declaration and the old output; the text written is that joined by the separator |
| `JstShell.Run` | src/main/resources/jst-shell.js:100-154 | results and problems are those of the completions in order; the artifact is written once with the composed statements when there is a mapping, and never otherwise |

## Left out

- File reading, `mkdirp` (its ignored error) and `fs.writeFile`: these are I/O. A read is modelled as a `Completion` carrying the compile outcome. The write is the `written` field.
- `throwIfErr`: an I/O error ends the process, and there is no I/O in the model.
- `process.argv` and `JSON.parse` of the three arguments: host plumbing. The mappings and options arrive as values.
- `path.join(target, options.outputPath)`: a Node library call. The output file path is a parameter.
- `_.template` and the `interpolate` option it receives: an external compiler. Its success (the `.source` text) or its exception is the `Option<string>` of a completion.
- `writeDone`'s `console.log` status line: its content is the `results` and `problems`, which are modelled. Printing is not.
- The order in which read callbacks complete is arbitrary in the script. The model takes the callbacks in a given order, one per mapping, and does not model concurrency.
- `Quote`: JavaScript strings are UTF-16, and `JSON.stringify` escapes lone surrogates. A Dafny `char` is a Unicode scalar value, so lone surrogates cannot occur in the model.
- A `namespace` or `separator` option that is not a string (for example, missing) is not modelled. Both are taken to be strings.
