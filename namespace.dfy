/**
 * The namespace builder of the shell script: a dotted namespace such as
 * `App.Views` becomes the access expression `this["App"]["Views"]` and the
 * initialise-if-absent declaration
 * `this["App"] = this["App"] || {};` / `this["App"]["Views"] = this["App"]["Views"] || {};`
 * (one line per segment, joined by a newline). A segment spelled `this`
 * stands for the root and contributes nothing.
 */
module Namespace {
  import opened JsText

  datatype NsInfo = NsInfo(namespace: string, declaration: string)

  const Root: string := "this"

  /** `'[' + JSON.stringify(seg) + ']'`: one property access. */
  function Accessor(seg: string): string
  {
    "[" + Quote(seg) + "]"
  }

  /** `P + ' = ' + P + ' || {};'`: initialise `P` unless it already exists. */
  function InitLine(path: string): string
  {
    path + " = " + path + " || {};"
  }

  /** The segments that contribute to the path: every segment except `this`. */
  function Kept(parts: seq<string>): (k: seq<string>)
    ensures forall i :: 0 <= i < |k| ==> k[i] != Root
    ensures |k| <= |parts|
  {
    if parts == [] then []
    else Kept(parts[..|parts| - 1]) + (if parts[|parts| - 1] == Root then [] else [parts[|parts| - 1]])
  }

  /** The access path after the kept segments `k`, grown one segment at a time. */
  function PathOf(k: seq<string>): string
  {
    if k == [] then Root else PathOf(k[..|k| - 1]) + Accessor(k[|k| - 1])
  }

  /** The declaration lines after the kept segments `k`, grown one segment at a time. */
  function LinesOf(k: seq<string>): (lines: seq<string>)
    ensures |lines| == |k|
  {
    if k == [] then [] else LinesOf(k[..|k| - 1]) + [InitLine(PathOf(k))]
  }

  /** The `namespace` half of `getNamespaceDeclaration(ns)`. */
  function NamespaceExpr(ns: string): string
  {
    if ns == Root then Root else PathOf(Kept(Split(ns, '.')))
  }

  /** The `declaration` half of `getNamespaceDeclaration(ns)`. */
  function Declaration(ns: string): string
  {
    if ns == Root then "" else Join(LinesOf(Kept(Split(ns, '.'))), "\n")
  }

  /** `getNamespaceDeclaration`: a loop over the dot-separated segments that
      extends the current path and records one declaration line per segment. */
  method GetNamespaceDeclaration(ns: string) returns (info: NsInfo)
    ensures info.namespace == NamespaceExpr(ns)
    ensures info.declaration == Declaration(ns)
  {
    var output: seq<string> := [];
    var curPath := Root;
    if ns != Root {
      var nsParts := Split(ns, '.');
      var index := 0;
      while index < |nsParts|
        invariant 0 <= index <= |nsParts|
        invariant curPath == PathOf(Kept(nsParts[..index]))
        invariant output == LinesOf(Kept(nsParts[..index]))
      {
        var curPart := nsParts[index];
        ghost var kept := Kept(nsParts[..index]);
        KeptStep(nsParts, index);
        if curPart != Root {
          GrowStep(kept, curPart);
          curPath := curPath + Accessor(curPart);
          output := output + [InitLine(curPath)];
        }
        index := index + 1;
      }
      assert nsParts[..index] == nsParts;
    }
    info := NsInfo(curPath, Join(output, "\n"));
  }

  lemma KeptStep(parts: seq<string>, i: nat)
    requires i < |parts|
    ensures parts[i] == Root ==> Kept(parts[..i + 1]) == Kept(parts[..i])
    ensures parts[i] != Root ==> Kept(parts[..i + 1]) == Kept(parts[..i]) + [parts[i]]
  {
    assert parts[..i + 1][..i] == parts[..i];
  }

  lemma GrowStep(k: seq<string>, x: string)
    ensures PathOf(k + [x]) == PathOf(k) + Accessor(x)
    ensures LinesOf(k + [x]) == LinesOf(k) + [InitLine(PathOf(k) + Accessor(x))]
  {
    assert (k + [x])[..|k|] == k;
  }

  // ---------------------------------------------------------------------------
  // Reference definitions and the properties of the builder

  /** The accessors of `k`, concatenated front to back. */
  function Accessors(k: seq<string>): string
  {
    if k == [] then "" else Accessor(k[0]) + Accessors(k[1..])
  }

  lemma {:induction false} AccessorsSnoc(k: seq<string>, x: string)
    ensures Accessors(k + [x]) == Accessors(k) + Accessor(x)
  {
    if k == [] {
      assert [x][1..] == [];
    } else {
      assert (k + [x])[1..] == k[1..] + [x];
      AccessorsSnoc(k[1..], x);
    }
  }

  /** The path is `this` followed by one `[Quote(seg)]` per kept segment, in order. */
  lemma {:induction false} PathIsRootThenAccessors(k: seq<string>)
    ensures PathOf(k) == Root + Accessors(k)
  {
    if k != [] {
      var init, last := k[..|k| - 1], k[|k| - 1];
      assert init + [last] == k;
      calc {
        PathOf(k);
        PathOf(init) + Accessor(last);
        { PathIsRootThenAccessors(init); }
        (Root + Accessors(init)) + Accessor(last);
        Root + (Accessors(init) + Accessor(last));
        { AccessorsSnoc(init, last); }
        Root + Accessors(k);
      }
    }
  }

  /** Line `i` of the declaration initialises the prefix made of the first
      `i + 1` kept segments. */
  lemma {:induction false} LineIsCumulativePrefix(k: seq<string>, i: nat)
    requires i < |k|
    ensures LinesOf(k)[i] == InitLine(Root + Accessors(k[..i + 1]))
  {
    if i == |k| - 1 {
      assert k[..i + 1] == k;
      PathIsRootThenAccessors(k);
    } else {
      var init := k[..|k| - 1];
      LineIsCumulativePrefix(init, i);
      assert init[..i + 1] == k[..i + 1];
    }
  }

  /** `Kept` filters `this` out and keeps everything else in order: it
      distributes over concatenation and is the identity without `this`. */
  lemma {:induction false} KeptAppend(a: seq<string>, b: seq<string>)
    ensures Kept(a + b) == Kept(a) + Kept(b)
    decreases |b|
  {
    if b == [] {
      assert a + b == a;
    } else {
      var b' := b[..|b| - 1];
      assert (a + b)[..|a + b| - 1] == a + b';
      KeptAppend(a, b');
    }
  }

  lemma {:induction false} KeptWithoutRoot(parts: seq<string>)
    requires Root !in parts
    ensures Kept(parts) == parts
  {
    if parts != [] {
      KeptWithoutRoot(parts[..|parts| - 1]);
    }
  }

  lemma KeptSingle(x: string)
    ensures Kept([x]) == if x == Root then [] else [x]
  {
    assert [x][..0] == [];
  }

  lemma {:induction false} LinesHaveNoNewline(k: seq<string>)
    ensures forall i :: 0 <= i < |k| ==> '\n' !in LinesOf(k)[i]
  {
    forall i | 0 <= i < |k|
      ensures '\n' !in LinesOf(k)[i]
    {
      LineIsCumulativePrefix(k, i);
      AccessorsHaveNoNewline(k[..i + 1]);
    }
  }

  lemma {:induction false} AccessorsHaveNoNewline(k: seq<string>)
    ensures '\n' !in Accessors(k)
  {
    if k != [] {
      AccessorsHaveNoNewline(k[1..]);
      QuoteShape(k[0]);
    }
  }

  /** The namespace `this` (the root) gives the root expression and an empty declaration. */
  lemma RootNamespace()
    ensures NamespaceExpr(Root) == Root && Declaration(Root) == ""
  {
  }

  /** The guard against `ns == 'this'` changes nothing: without it the
      split of `this` is `["this"]`, which keeps no segment. */
  lemma RootGuardIsRedundant(ns: string)
    ensures NamespaceExpr(ns) == PathOf(Kept(Split(ns, '.')))
    ensures Declaration(ns) == Join(LinesOf(Kept(Split(ns, '.'))), "\n")
  {
    if ns == Root {
      SplitNoSep(ns, '.');
      KeptSingle(ns);
    }
  }

  /** The declaration has exactly one line per kept segment: splitting it at
      newlines gives the lines back (and an empty declaration means no
      segment was kept, as for `this` itself). */
  lemma {:induction false} DeclarationLines(ns: string)
    ensures var k := Kept(Split(ns, '.'));
      && (Declaration(ns) == "" <==> k == [])
      && (k != [] ==> Split(Declaration(ns), '\n') == LinesOf(k))
  {
    var k := Kept(Split(ns, '.'));
    if ns == Root {
      SplitNoSep(ns, '.');
      KeptSingle(ns);
    } else if k != [] {
      LinesHaveNoNewline(k);
      SplitJoin(LinesOf(k), '\n');
      LineIsCumulativePrefix(k, 0);
    }
  }

  /** Neither the namespace expression nor any declaration line contains a newline. */
  lemma NamespaceIsOneLine(ns: string)
    ensures '\n' !in NamespaceExpr(ns)
  {
    if ns != Root {
      var k := Kept(Split(ns, '.'));
      PathIsRootThenAccessors(k);
      AccessorsHaveNoNewline(k);
    }
  }

  lemma AppViewsSplit()
    ensures Split("App.Views", '.') == ["App", "Views"]
  {
    assert "App.Views" == "App" + ['.'] + "Views";
    SplitAtSep("App", "Views", '.');
    SplitNoSep("Views", '.');
  }

  lemma AppPath()
    ensures PathOf(["App"]) == "this[\"App\"]"
  {
    QuotePlain("App");
    assert Accessor("App") == "[\"App\"]";
    assert ["App"][..0] == [];
  }

  lemma AppViewsPath()
    ensures PathOf(["App", "Views"]) == "this[\"App\"][\"Views\"]"
  {
    AppPath();
    QuotePlain("Views");
    assert Accessor("Views") == "[\"Views\"]";
    assert ["App", "Views"][..1] == ["App"];
    assert PathOf(["App", "Views"]) == PathOf(["App"]) + Accessor("Views");
  }

  lemma AppViewsLines()
    ensures LinesOf(["App", "Views"]) == [InitLine("this[\"App\"]"), InitLine("this[\"App\"][\"Views\"]")]
  {
    AppPath();
    AppViewsPath();
    assert ["App", "Views"][..1] == ["App"];
    assert ["App"][..0] == [];
  }

  lemma AppViewsKept()
    ensures Kept(Split("App.Views", '.')) == ["App", "Views"]
  {
    AppViewsSplit();
    KeptWithoutRoot(["App", "Views"]);
  }

  /** Worked example: `App.Views` is accessed as `this["App"]["Views"]`. */
  lemma AppViewsNamespace()
    ensures NamespaceExpr("App.Views") == "this[\"App\"][\"Views\"]"
  {
    AppViewsKept();
    AppViewsPath();
  }

  /** Worked example: `App.Views` declares `this["App"]`, then `this["App"]["Views"]`. */
  lemma AppViewsDeclaration()
    ensures Declaration("App.Views") ==
      InitLine("this[\"App\"]") + "\n" + InitLine("this[\"App\"][\"Views\"]")
  {
    AppViewsKept();
    AppViewsLines();
    var a, b := InitLine("this[\"App\"]"), InitLine("this[\"App\"][\"Views\"]");
    assert [a, b][1..] == [b];
    assert Join([a, b], "\n") == a + "\n" + b;
  }
}
