/**
 * The JavaScript string and array primitives the shell script relies on:
 * `String.prototype.split` with a one-character separator,
 * `Array.prototype.join`, `String.prototype.replace` with a global
 * one-character pattern, and `JSON.stringify` applied to a string.
 */
module JsText {

  datatype Option<T> = None | Some(value: T)

  /** `s.split(sep)` for a one-character separator: never empty, and
      an empty string yields one empty part. */
  function Split(s: string, sep: char): (parts: seq<string>)
    ensures |parts| >= 1
    ensures forall i :: 0 <= i < |parts| ==> sep !in parts[i]
    decreases |s|
  {
    if s == [] then [[]]
    else
      var rest := Split(s[1..], sep);
      if s[0] == sep then [[]] + rest
      else [[s[0]] + rest[0]] + rest[1..]
  }

  /** `parts.join(sep)`: the empty array joins to the empty string. */
  function Join(parts: seq<string>, sep: string): (s: string)
    ensures |parts| >= 1 ==> parts[0] <= s
  {
    if |parts| == 0 then []
    else if |parts| == 1 then parts[0]
    else parts[0] + sep + Join(parts[1..], sep)
  }

  lemma JoinConsHead(x: char, p: string, q: seq<string>, sep: string)
    ensures Join([[x] + p] + q, sep) == [x] + Join([p] + q, sep)
  {
    if q != [] {
      assert ([[x] + p] + q)[1..] == q;
      assert ([p] + q)[1..] == q;
    }
  }

  /** Joining the parts of a split with the same separator gives back the string. */
  lemma {:induction false} JoinSplit(s: string, c: char)
    ensures Join(Split(s, c), [c]) == s
    decreases |s|
  {
    if s != [] {
      var rest := Split(s[1..], c);
      JoinSplit(s[1..], c);
      if s[0] == c {
        assert ([[]] + rest)[1..] == rest;
      } else {
        assert rest == [rest[0]] + rest[1..];
        JoinConsHead(s[0], rest[0], rest[1..], [c]);
      }
    }
  }

  lemma {:induction false} SplitNoSep(a: string, c: char)
    requires c !in a
    ensures Split(a, c) == [a]
  {
    if a != [] {
      SplitNoSep(a[1..], c);
      assert a[0] != c && a == [a[0]] + a[1..];
    }
  }

  lemma {:induction false} SplitAtSep(a: string, t: string, c: char)
    requires c !in a
    ensures Split(a + [c] + t, c) == [a] + Split(t, c)
  {
    var s := a + [c] + t;
    if a == [] {
      assert s[1..] == t;
    } else {
      assert s[0] == a[0] != c;
      assert s[1..] == a[1..] + [c] + t;
      SplitAtSep(a[1..], t, c);
      assert [a[0]] + a[1..] == a;
    }
  }

  /** Splitting a join of separator-free parts gives back those parts. */
  lemma {:induction false} SplitJoin(parts: seq<string>, c: char)
    requires |parts| >= 1
    requires forall i :: 0 <= i < |parts| ==> c !in parts[i]
    ensures Split(Join(parts, [c]), c) == parts
  {
    if |parts| == 1 {
      SplitNoSep(parts[0], c);
    } else {
      SplitJoin(parts[1..], c);
      SplitAtSep(parts[0], Join(parts[1..], [c]), c);
    }
  }

  lemma {:induction false} JoinSnoc(parts: seq<string>, last: string, sep: string)
    requires |parts| >= 1
    ensures Join(parts + [last], sep) == Join(parts, sep) + sep + last
  {
    if |parts| == 1 {
      assert (parts + [last])[1..] == [last];
    } else {
      assert (parts + [last])[1..] == parts[1..] + [last];
      JoinSnoc(parts[1..], last, sep);
    }
  }

  lemma {:induction false} JoinAppend(xs: seq<string>, ys: seq<string>, sep: string)
    requires |xs| >= 1 && |ys| >= 1
    ensures Join(xs + ys, sep) == Join(xs, sep) + sep + Join(ys, sep)
  {
    if |xs| == 1 {
      assert (xs + ys)[1..] == ys;
    } else {
      assert (xs + ys)[1..] == xs[1..] + ys;
      JoinAppend(xs[1..], ys, sep);
    }
  }

  lemma {:induction false} JoinNoChar(parts: seq<string>, sep: string, c: char)
    requires c !in sep
    requires forall i :: 0 <= i < |parts| ==> c !in parts[i]
    ensures c !in Join(parts, sep)
  {
    if |parts| > 1 {
      JoinNoChar(parts[1..], sep, c);
    }
  }

  /** `s.replace(/c/g, '')`: every occurrence of `c` removed, all other
      characters kept with their multiplicities; `RemoveAllAppend` and
      `RemoveAllOne` say they also keep their order. */
  function RemoveAll(s: string, c: char): (r: string)
    ensures c !in r
    ensures multiset(r) == multiset(s)[c := 0]
    ensures c !in s ==> r == s
  {
    if s == [] then []
    else if s[0] == c then
      assert s == [s[0]] + s[1..];
      RemoveAll(s[1..], c)
    else
      assert s == [s[0]] + s[1..];
      [s[0]] + RemoveAll(s[1..], c)
  }

  /** Removal works piece by piece: the result for `a + b` is the result for
      `a` followed by the result for `b`, so the kept characters stay in order. */
  lemma {:induction false} RemoveAllAppend(a: string, b: string, c: char)
    ensures RemoveAll(a + b, c) == RemoveAll(a, c) + RemoveAll(b, c)
  {
    if a == [] {
      assert a + b == b;
    } else {
      var ab := a + b;
      assert ab[0] == a[0] && ab[1..] == a[1..] + b;
      RemoveAllAppend(a[1..], b, c);
      if a[0] == c {
        calc {
          RemoveAll(ab, c);
          RemoveAll(a[1..] + b, c);
          RemoveAll(a[1..], c) + RemoveAll(b, c);
        }
      } else {
        calc {
          RemoveAll(ab, c);
          [a[0]] + RemoveAll(a[1..] + b, c);
          [a[0]] + (RemoveAll(a[1..], c) + RemoveAll(b, c));
          ([a[0]] + RemoveAll(a[1..], c)) + RemoveAll(b, c);
        }
      }
    }
  }

  /** On one character: `c` disappears, any other character stays. */
  lemma RemoveAllOne(x: char, c: char)
    ensures RemoveAll([x], c) == if x == c then [] else [x]
  {
    assert [x][1..] == [];
  }

  /** The i-th kept character is the i-th character of `s` other than `c`:
      the result is exactly the subsequence of `s` without `c`. */
  lemma {:induction false} RemoveAllKeepsOrder(s: string, c: char, i: nat)
    requires i < |s| && s[i] != c
    ensures var r := RemoveAll(s, c); var j := |RemoveAll(s[..i], c)|;
      j < |r| && r[j] == s[i]
  {
    var pre, x, post := s[..i], s[i], s[i + 1..];
    assert s == pre + ([x] + post);
    RemoveAllAppend(pre, [x] + post, c);
    RemoveAllAppend([x], post, c);
    RemoveAllOne(x, c);
    var p := RemoveAll(pre, c);
    assert RemoveAll(s, c) == p + ([x] + RemoveAll(post, c));
    assert (p + ([x] + RemoveAll(post, c)))[|p|] == x;
  }

  const HexDigits: string := "0123456789abcdef"

  /** The escape ECMAScript's QuoteJSONString uses for one character:
      the two-character escapes for quote, backslash, \b, \t, \n, \f, \r,
      a six-character lower-case \u00XX escape for the other control
      characters, and the character itself otherwise. */
  function EscapeChar(ch: char): (e: string)
    ensures |e| >= 1
    ensures e[0] == '\\' <==> (ch == '"' || ch == '\\' || ch as int < 0x20)
    ensures e[0] != '\\' ==> e == [ch]
  {
    if ch == '"' then "\\\""
    else if ch == '\\' then "\\\\"
    else if ch as int == 0x08 then "\\b"
    else if ch as int == 0x09 then "\\t"
    else if ch as int == 0x0A then "\\n"
    else if ch as int == 0x0C then "\\f"
    else if ch as int == 0x0D then "\\r"
    else if ch as int < 0x20 then
      "\\u00" + [HexDigits[ch as int / 16], HexDigits[ch as int % 16]]
    else [ch]
  }

  function Escape(s: string): (e: string)
    ensures |e| >= |s|
  {
    if s == [] then [] else EscapeChar(s[0]) + Escape(s[1..])
  }

  /** `JSON.stringify(s)` for a string `s`. */
  function Quote(s: string): string
  {
    "\"" + Escape(s) + "\""
  }

  /** Printable: no control character, in particular no newline. */
  ghost predicate Printable(s: string)
  {
    forall i :: 0 <= i < |s| ==> s[i] as int >= 0x20
  }

  lemma EscapeCharPrintable(ch: char)
    ensures Printable(EscapeChar(ch))
  {
    if ch as int < 0x20 && ch as int !in {0x08, 0x09, 0x0A, 0x0C, 0x0D} {
      assert HexDigits[ch as int / 16] as int >= 0x30;
      assert HexDigits[ch as int % 16] as int >= 0x30;
    }
  }

  lemma {:induction false} EscapePrintable(s: string)
    ensures Printable(Escape(s))
  {
    if s != [] {
      EscapeCharPrintable(s[0]);
      EscapePrintable(s[1..]);
    }
  }

  /** A string without control characters, quotes or backslashes is quoted verbatim. */
  lemma {:induction false} QuotePlain(s: string)
    requires forall i :: 0 <= i < |s| ==> s[i] as int >= 0x20 && s[i] != '"' && s[i] != '\\'
    ensures Escape(s) == s && Quote(s) == "\"" + s + "\""
  {
    if s != [] {
      QuotePlain(s[1..]);
      assert s == [s[0]] + s[1..];
    }
  }

  /** A quoted string is enclosed in double quotes and holds no control
      character: in particular it never spans two lines. */
  lemma QuoteShape(s: string)
    ensures var q := Quote(s); |q| >= 2 && q[0] == '"' && q[|q| - 1] == '"'
    ensures Printable(Quote(s)) && '\n' !in Quote(s)
  {
    EscapePrintable(s);
    var q := Quote(s);
    assert forall i :: 0 <= i < |q| ==> q[i] != '\n' by {
      forall i | 0 <= i < |q| ensures q[i] != '\n' {
        assert q[i] as int >= 0x20;
      }
    }
  }

  // ---------------------------------------------------------------------------
  // Reading a quoted string back: JSON string escapes of the forms above

  function HexValue(d: char): Option<int>
  {
    if '0' <= d <= '9' then Some(d as int - '0' as int)
    else if 'a' <= d <= 'f' then Some(d as int - 'a' as int + 10)
    else None
  }

  lemma HexValueOfDigit(k: int)
    requires 0 <= k < 16
    ensures HexValue(HexDigits[k]) == Some(k)
  {
  }

  /** Decodes backslash escapes; `None` for a malformed escape or a bare quote. */
  function Unescape(e: string): Option<string>
  {
    if e == [] then Some([])
    else if e[0] == '"' then None
    else if e[0] != '\\' then
      match Unescape(e[1..])
      case Some(rest) => Some([e[0]] + rest)
      case None => None
    else if |e| < 2 then None
    else
      var x := e[1];
      var decoded: Option<(char, nat)> :=
        if x == '"' then Some(('"', 2))
        else if x == '\\' then Some(('\\', 2))
        else if x == 'b' then Some((0x08 as char, 2))
        else if x == 't' then Some((0x09 as char, 2))
        else if x == 'n' then Some((0x0A as char, 2))
        else if x == 'f' then Some((0x0C as char, 2))
        else if x == 'r' then Some((0x0D as char, 2))
        else if x == 'u' && |e| >= 6 && e[2] == '0' && e[3] == '0'
                && HexValue(e[4]).Some? && HexValue(e[5]).Some? then
          Some(((HexValue(e[4]).value * 16 + HexValue(e[5]).value) as char, 6))
        else None;
      match decoded
      case Some((ch, len)) =>
        (match Unescape(e[len..])
         case Some(rest) => Some([ch] + rest)
         case None => None)
      case None => None
  }

  lemma UnescapeAfterChar(ch: char, t: string)
    ensures Unescape(EscapeChar(ch) + t) ==
      match Unescape(t)
      case Some(rest) => Some([ch] + rest)
      case None => None
  {
    var e := EscapeChar(ch) + t;
    if ch as int < 0x20 && ch as int !in {0x08, 0x09, 0x0A, 0x0C, 0x0D} {
      var hi, lo := ch as int / 16, ch as int % 16;
      HexValueOfDigit(hi);
      HexValueOfDigit(lo);
      assert e[..6] == "\\u00" + [HexDigits[hi], HexDigits[lo]];
      assert e[6..] == t;
    } else if e[0] == '\\' {
      assert e[2..] == t;
    } else {
      assert e[1..] == t;
    }
  }

  lemma {:induction false} UnescapeEscape(s: string)
    ensures Unescape(Escape(s)) == Some(s)
  {
    if s != [] {
      UnescapeEscape(s[1..]);
      UnescapeAfterChar(s[0], Escape(s[1..]));
      assert [s[0]] + s[1..] == s;
    }
  }

  function Unquote(q: string): Option<string>
  {
    if |q| >= 2 && q[0] == '"' && q[|q| - 1] == '"' then Unescape(q[1..|q| - 1]) else None
  }

  /** `JSON.stringify` on strings loses nothing: the quoted text decodes back. */
  lemma UnquoteQuote(s: string)
    ensures Unquote(Quote(s)) == Some(s)
  {
    var q := Quote(s);
    assert q[1..|q| - 1] == Escape(s);
    UnescapeEscape(s);
  }

  /** Distinct strings are quoted differently. */
  lemma QuoteInjective(s: string, t: string)
    requires Quote(s) == Quote(t)
    ensures s == t
  {
    UnquoteQuote(s);
    UnquoteQuote(t);
  }
}
