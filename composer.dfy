/**
 * The output composer of the shell script: the statement recorded for one
 * compiled template, and the final sequence of output lines `writeOutput`
 * builds from the namespace declaration and those statements, optionally
 * wrapped as an AMD module (`define(function(){ … return ns; });`) and
 * indented when pretty output is asked for.
 */
module Composer {
  import opened JsText

  const DefineOpen: string := "define(function(){"
  const DefineClose: string := "});"
  const Indentation: string := "  "

  /** The compiled template source as it goes into the statement: every
      newline removed unless pretty output is asked for. */
  function CompiledBody(compiled: string, prettify: bool): (body: string)
    ensures !prettify ==> '\n' !in body && multiset(body) == multiset(compiled)['\n' := 0]
    ensures prettify || '\n' !in compiled ==> body == compiled
  {
    if prettify then compiled else RemoveAll(compiled, '\n')
  }

  /** Compact mode keeps the order of what it keeps: the body of `a + b` is
      the body of `a` followed by the body of `b`, and one character other
      than a newline is kept as it is. */
  lemma CompactBodyKeepsOrder(a: string, b: string, x: char)
    ensures CompiledBody(a + b, false) == CompiledBody(a, false) + CompiledBody(b, false)
    ensures CompiledBody([x], false) == if x == '\n' then [] else [x]
  {
    RemoveAllAppend(a, b, '\n');
    RemoveAllOne(x, '\n');
  }

  /** `namespace + '[' + JSON.stringify(filename) + '] = ' + compiled + ';'` */
  function Fragment(namespace: string, filename: string, body: string): string
  {
    namespace + "[" + Quote(filename) + "] = " + body + ";"
  }

  /** In compact mode every statement is a single physical line. */
  lemma CompactFragmentIsOneLine(namespace: string, filename: string, compiled: string)
    requires '\n' !in namespace
    ensures '\n' !in Fragment(namespace, filename, CompiledBody(compiled, false))
  {
    QuoteShape(filename);
  }

  /** The fragment is the namespace, then the quoted name in brackets, then
      ` = `, the body and a closing semicolon. */
  lemma FragmentShape(namespace: string, filename: string, body: string)
    ensures var f := Fragment(namespace, filename, body);
      && namespace + "[\"" <= f
      && |f| == |namespace| + |Quote(filename)| + |body| + 6
      && f[|f| - 1] == ';'
  {
    QuoteShape(filename);
    var f := Fragment(namespace, filename, body);
    var q := Quote(filename);
    assert f == namespace + "[" + q + "] = " + body + ";";
    assert f[|namespace|] == '[' && f[|namespace| + 1] == q[0] == '"';
  }

  function Indent(lines: seq<string>): (r: seq<string>)
    ensures |r| == |lines|
  {
    if lines == [] then [] else [Indentation + lines[0]] + Indent(lines[1..])
  }

  lemma {:induction false} IndentAt(lines: seq<string>, i: nat)
    requires i < |lines|
    ensures Indent(lines)[i] == Indentation + lines[i]
  {
    if i > 0 {
      IndentAt(lines[1..], i - 1);
    }
  }

  function ReturnLine(namespace: string): string
  {
    "  return " + namespace + ";"
  }

  /** The lines `writeOutput` writes: the declaration in front of the body;
      with `amd`, the wrapper around them, and with `amd` and `prettify`
      every line in between indented by two spaces. */
  function Compose(declaration: string, body: seq<string>, namespace: string, amd: bool, prettify: bool): seq<string>
  {
    var lines := [declaration] + body;
    if !amd then lines
    else [DefineOpen] + (if prettify then Indent(lines) else lines) + [ReturnLine(namespace), DefineClose]
  }

  /** The shape of the composed output, line by line. */
  lemma ComposeShape(declaration: string, body: seq<string>, namespace: string, amd: bool, prettify: bool)
    ensures var r := Compose(declaration, body, namespace, amd, prettify);
      && (!amd ==> r == [declaration] + body)
      && (amd ==>
            && |r| == |body| + 4
            && r[0] == DefineOpen
            && r[|r| - 2] == ReturnLine(namespace)
            && r[|r| - 1] == DefineClose
            && r[1] == (if prettify then Indentation else "") + declaration
            && forall i :: 0 <= i < |body| ==> r[i + 2] == (if prettify then Indentation else "") + body[i])
  {
    var lines := [declaration] + body;
    if amd && prettify {
      forall i | 0 <= i < |lines| ensures Indent(lines)[i] == Indentation + lines[i] {
        IndentAt(lines, i);
      }
    }
  }

  // ---------------------------------------------------------------------------
  // Reading the composed lines back

  /** Removes the two-space indentation from every line, if every line has it. */
  function Unindent(lines: seq<string>): Option<seq<string>>
  {
    if lines == [] then Some([])
    else if Indentation <= lines[0] then
      match Unindent(lines[1..])
      case Some(rest) => Some([lines[0][|Indentation|..]] + rest)
      case None => None
    else None
  }

  lemma {:induction false} UnindentIndent(lines: seq<string>)
    ensures Unindent(Indent(lines)) == Some(lines)
  {
    if lines != [] {
      UnindentIndent(lines[1..]);
      var first := Indentation + lines[0];
      assert Indentation <= first && first[|Indentation|..] == lines[0];
      assert Indent(lines)[0] == first;
      assert Indent(lines)[1..] == Indent(lines[1..]);
      assert [lines[0]] + lines[1..] == lines;
    }
  }

  /** Recovers the declaration and the body statements from composed lines. */
  function Decompose(lines: seq<string>, amd: bool, prettify: bool): Option<(string, seq<string>)>
  {
    if !amd then
      if lines == [] then None else Some((lines[0], lines[1..]))
    else if |lines| < 4 || lines[0] != DefineOpen || lines[|lines| - 1] != DefineClose then None
    else
      var inner := lines[1..|lines| - 2];
      var plain := if prettify then Unindent(inner) else Some(inner);
      match plain
      case Some(p) => if p == [] then None else Some((p[0], p[1..]))
      case None => None
  }

  /** Composing loses nothing: the declaration and the body come back out. */
  lemma ComposeDecompose(declaration: string, body: seq<string>, namespace: string, amd: bool, prettify: bool)
    ensures Decompose(Compose(declaration, body, namespace, amd, prettify), amd, prettify) == Some((declaration, body))
  {
    var lines := [declaration] + body;
    if amd {
      var mid := if prettify then Indent(lines) else lines;
      var r := Compose(declaration, body, namespace, amd, prettify);
      assert r == [DefineOpen] + mid + [ReturnLine(namespace), DefineClose];
      assert r[1..|r| - 2] == mid;
      if prettify {
        UnindentIndent(lines);
      }
    }
  }

  /** Two compositions with the same options agree exactly when their
      declarations and bodies agree. */
  lemma ComposeInjective(d1: string, b1: seq<string>, d2: string, b2: seq<string>, namespace: string, amd: bool, prettify: bool)
    requires Compose(d1, b1, namespace, amd, prettify) == Compose(d2, b2, namespace, amd, prettify)
    ensures d1 == d2 && b1 == b2
  {
    ComposeDecompose(d1, b1, namespace, amd, prettify);
    ComposeDecompose(d2, b2, namespace, amd, prettify);
  }

  /** The written text without `amd`: the declaration followed by the
      separator-joined statements. */
  lemma PlainArtifactText(declaration: string, body: seq<string>, namespace: string, prettify: bool, sep: string)
    ensures Join(Compose(declaration, body, namespace, false, prettify), sep)
         == declaration + (if body == [] then "" else sep + Join(body, sep))
  {
    if body != [] {
      JoinAppend([declaration], body, sep);
    }
  }

  /** The written text with `amd`: the wrapper lines around the separator-joined
      interior, each joined by the separator. */
  lemma ModuleArtifactText(declaration: string, body: seq<string>, namespace: string, prettify: bool, sep: string)
    ensures var lines := [declaration] + body;
      Join(Compose(declaration, body, namespace, true, prettify), sep)
      == DefineOpen + sep + Join(if prettify then Indent(lines) else lines, sep)
         + sep + ReturnLine(namespace) + sep + DefineClose
  {
    var lines := [declaration] + body;
    var mid := if prettify then Indent(lines) else lines;
    var ret := ReturnLine(namespace);
    assert |mid| >= 1;
    assert Compose(declaration, body, namespace, true, prettify) == [DefineOpen] + mid + [ret] + [DefineClose];
    calc {
      Join([DefineOpen] + mid + [ret] + [DefineClose], sep);
      { JoinSnoc([DefineOpen] + mid + [ret], DefineClose, sep); }
      Join([DefineOpen] + mid + [ret], sep) + sep + DefineClose;
      { JoinSnoc([DefineOpen] + mid, ret, sep); }
      Join([DefineOpen] + mid, sep) + sep + ret + sep + DefineClose;
      { JoinAppend([DefineOpen], mid, sep); }
      DefineOpen + sep + Join(mid, sep) + sep + ret + sep + DefineClose;
    }
  }
}
