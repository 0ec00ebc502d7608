/**
 * The error artifact of the bundler (`writeErrorInOutputFile` and the
 * `onEnd` callback of the swc plugin in `src/build-application.js`): when a
 * bundle fails, its output file is replaced by a small script that shows the
 * first diagnostic in the page and logs it. The diagnostic is embedded in two
 * template literals, so it is escaped first.
 */
module ErrorArtifact {
  import opened Wrappers
  import opened Text
  import FileSystem

  /**
   * The two escapes, in the source's order: every backtick becomes "\`",
   * then every "${" becomes "\${".
   */
  function EscapeMessage(text: string): string {
    ReplaceAll(ReplaceAll(text, "`", "\\`"), "${", "\\${")
  }

  /** The text written: escaped, then every occurrence of the working directory shortened to ".". */
  function ErrorMessage(text: string, cwd: string): string
    requires |cwd| > 0
  {
    ReplaceAll(EscapeMessage(text), cwd, ".")
  }

  /**
   * The string a template-literal body denotes, or None when the body would
   * end the literal early (a bare backtick), open a substitution (a bare
   * "${"), or use an escape other than \\, \`, \$ and \{ (not modelled).
   */
  function TemplateText(s: string): (r: Option<string>)
    decreases |s|
  {
    if s == [] then Some([])
    else if s[0] == '`' then None
    else if s[0] == '$' && |s| > 1 && s[1] == '{' then None
    else if s[0] == '\\' then
      if |s| > 1 && s[1] in {'\\', '`', '$', '{'} then Cons(s[1], TemplateText(s[2..])) else None
    else Cons(s[0], TemplateText(s[1..]))
  }

  function Cons(c: char, o: Option<string>): Option<string> {
    match o
    case None => None
    case Some(x) => Some([c] + x)
  }

  /** A character neither escape touches and that never starts an escape. */
  predicate Plain(c: char) {
    c != '\\' && c != '`' && c != '$' && c != '{'
  }

  predicate AllPlain(s: string) {
    forall i :: 0 <= i < |s| ==> Plain(s[i])
  }

  predicate NoBackslash(s: string) {
    forall i :: 0 <= i < |s| ==> s[i] != '\\'
  }

  /** Every backtick and every "${" in `s` comes right after a backslash. */
  predicate SpecialsEscaped(s: string) {
    forall i :: 0 <= i < |s| && SpecialAt(s, i) ==> 0 < i && s[i - 1] == '\\'
  }

  /** A backtick, or the "$" of a "${", stands at index `i` of `s`. */
  predicate SpecialAt(s: string, i: int)
    requires 0 <= i < |s|
  {
    s[i] == '`' || (s[i] == '$' && i + 1 < |s| && s[i + 1] == '{')
  }

  /** The backtick escape, one character at a time. */
  lemma BacktickHead(t: string)
    requires t != []
    ensures ReplaceAll(t, "`", "\\`")
         == (if t[0] == '`' then "\\`" else [t[0]]) + ReplaceAll(t[1..], "`", "\\`")
  {
    if t[0] == '`' {
      assert IsPrefix("`", t);
    } else {
      assert !IsPrefix("`", t);
    }
  }

  /** The "${" escape, when the text does not start with "${". */
  lemma InterpolationHeadPlain(u: string)
    requires u != [] && !(u[0] == '$' && |u| > 1 && u[1] == '{')
    ensures ReplaceAll(u, "${", "\\${") == [u[0]] + ReplaceAll(u[1..], "${", "\\${")
  {
    assert !IsPrefix("${", u);
  }

  /** How the two escapes together treat the first character (or two) of a text. */
  lemma {:induction false} EscapeHead(t: string)
    requires t != []
    ensures t[0] == '`' ==> EscapeMessage(t) == "\\`" + EscapeMessage(t[1..])
    ensures t[0] == '$' && |t| > 1 && t[1] == '{' ==> EscapeMessage(t) == "\\${" + EscapeMessage(t[2..])
    ensures t[0] != '`' && !(t[0] == '$' && |t| > 1 && t[1] == '{')
      ==> EscapeMessage(t) == [t[0]] + EscapeMessage(t[1..])
  {
    if t[0] == '`' {
      EscapeHeadBacktick(t);
    } else if t[0] == '$' && |t| > 1 && t[1] == '{' {
      EscapeHeadInterpolation(t);
    } else {
      EscapeHeadOther(t);
    }
  }

  lemma EscapeHeadBacktick(t: string)
    requires t != [] && t[0] == '`'
    ensures EscapeMessage(t) == "\\`" + EscapeMessage(t[1..])
  {
    var b := ReplaceAll(t[1..], "`", "\\`");
    BacktickHead(t);
    InterpolationHeadPlain("\\`" + b);
    assert ("\\`" + b)[1..] == "`" + b;
    InterpolationHeadPlain("`" + b);
    assert ("`" + b)[1..] == b;
  }

  lemma EscapeHeadInterpolation(t: string)
    requires |t| > 1 && t[0] == '$' && t[1] == '{'
    ensures EscapeMessage(t) == "\\${" + EscapeMessage(t[2..])
  {
    var b := ReplaceAll(t[1..], "`", "\\`");
    BacktickHead(t);
    BacktickHead(t[1..]);
    assert t[1..][1..] == t[2..];
    var u := "${" + ReplaceAll(t[2..], "`", "\\`");
    assert [t[0]] + b == u;
    assert IsPrefix("${", u);
    assert u[2..] == ReplaceAll(t[2..], "`", "\\`");
  }

  lemma EscapeHeadOther(t: string)
    requires t != [] && t[0] != '`' && !(t[0] == '$' && |t| > 1 && t[1] == '{')
    ensures EscapeMessage(t) == [t[0]] + EscapeMessage(t[1..])
  {
    var b := ReplaceAll(t[1..], "`", "\\`");
    BacktickHead(t);
    if t[0] == '$' && |t| > 1 {
      BacktickHead(t[1..]);
    }
    InterpolationHeadPlain([t[0]] + b);
    assert ([t[0]] + b)[1..] == b;
  }

  /** The first character of an escaped text: a backslash exactly where an escape begins. */
  lemma EscapeFirst(t: string)
    requires t != []
    ensures EscapeMessage(t) != []
    ensures EscapeMessage(t)[0]
         == if t[0] == '`' || (t[0] == '$' && |t| > 1 && t[1] == '{') then '\\' else t[0]
  {
    EscapeHead(t);
  }

  /**
   * The escaping is complete, as the source's comment intends, for every
   * diagnostic without a backslash: the template literal it is embedded in
   * denotes the diagnostic itself.
   */
  lemma {:induction false} EscapeRoundTrip(t: string)
    requires NoBackslash(t)
    ensures TemplateText(EscapeMessage(t)) == Some(t)
    decreases |t|
  {
    if t == [] {
      assert ReplaceAll(t, "`", "\\`") == [];
    } else {
      EscapeHead(t);
      if t[0] == '`' {
        EscapeRoundTrip(t[1..]);
        TemplateOfBacktickEscape(EscapeMessage(t[1..]), t[1..]);
        assert t == "`" + t[1..];
      } else if t[0] == '$' && |t| > 1 && t[1] == '{' {
        EscapeRoundTrip(t[2..]);
        TemplateOfInterpolationEscape(EscapeMessage(t[2..]), t[2..]);
        assert t == "${" + t[2..];
      } else {
        EscapeRoundTrip(t[1..]);
        if t[0] == '$' && |t| > 1 {
          EscapeFirst(t[1..]);
        }
        TemplateOfPlain(t[0], EscapeMessage(t[1..]), t[1..]);
        assert t == [t[0]] + t[1..];
      }
    }
  }

  /** An escaped backtick denotes a backtick. */
  lemma TemplateOfBacktickEscape(e: string, rest: string)
    requires TemplateText(e) == Some(rest)
    ensures TemplateText("\\`" + e) == Some("`" + rest)
  {
    assert ("\\`" + e)[2..] == e;
  }

  /** An escaped "${" denotes "${". */
  lemma TemplateOfInterpolationEscape(e: string, rest: string)
    requires TemplateText(e) == Some(rest)
    ensures TemplateText("\\${" + e) == Some("${" + rest)
  {
    assert ("\\${" + e)[2..] == "{" + e;
    assert ("{" + e)[1..] == e;
    assert TemplateText("{" + e) == Cons('{', TemplateText(e));
    assert TemplateText("\\${" + e) == Cons('$', TemplateText("{" + e));
    AppendAssociative(['$'], ['{'], rest);
    assert ['$'] + ['{'] == "${";
  }

  /** Any other character denotes itself, unless it is a "$" that a "{" follows. */
  lemma TemplateOfPlain(c: char, e: string, rest: string)
    requires c != '`' && c != '\\' && !(c == '$' && e != [] && e[0] == '{')
    requires TemplateText(e) == Some(rest)
    ensures TemplateText([c] + e) == Some([c] + rest)
  {
    assert ([c] + e)[1..] == e;
  }

  /**
   * The escaping is not complete: a diagnostic holding a backslash before a
   * backtick yields a body whose backtick ends the literal.
   */
  lemma BackslashDefeatsEscaping()
    ensures EscapeMessage("\\`") == "\\\\`"
    ensures TemplateText(EscapeMessage("\\`")) == None
  {
    BacktickHead("\\`");
    BacktickHead("`");
    assert ReplaceAll("\\`", "`", "\\`") == "\\\\`";
    InterpolationHeadPlain("\\\\`");
    InterpolationHeadPlain("\\`");
    InterpolationHeadPlain("`");
    assert "\\\\`"[1..] == "\\`";
    assert "\\`"[1..] == "`";
    assert TemplateText("\\\\`") == Cons('\\', TemplateText("`"));
  }

  /** Two escaped texts stay escaped side by side unless a "$" meets a "{" at the seam. */
  lemma EscapedConcat(h: string, e: string)
    requires SpecialsEscaped(h) && SpecialsEscaped(e)
    requires h != [] && h[|h| - 1] == '$' && e != [] ==> e[0] != '{'
    ensures SpecialsEscaped(h + e)
  {
    var s := h + e;
    forall i | 0 <= i < |s| && SpecialAt(s, i)
      ensures 0 < i && s[i - 1] == '\\'
    {
      if i < |h| {
        assert s[i] == h[i];
        if i + 1 < |h| {
          assert s[i + 1] == h[i + 1];
        } else if i + 1 < |s| {
          assert s[i + 1] == e[0];
        }
        assert SpecialAt(h, i);
        if i > 0 {
          assert s[i - 1] == h[i - 1];
        }
      } else {
        var k := i - |h|;
        assert s[i] == e[k];
        if i + 1 < |s| {
          assert s[i + 1] == e[k + 1];
        }
        assert SpecialAt(e, k);
        if k > 0 {
          assert s[i - 1] == e[k - 1];
        }
      }
    }
  }

  /** After the escapes, no backtick and no "${" is left without a backslash in front. */
  lemma {:induction false} EscapedMessageIsEscaped(t: string)
    ensures SpecialsEscaped(EscapeMessage(t))
    decreases |t|
  {
    if t == [] {
      assert ReplaceAll(t, "`", "\\`") == [];
    } else {
      EscapeHead(t);
      if t[0] == '`' {
        EscapedMessageIsEscaped(t[1..]);
        assert SpecialsEscaped("\\`");
        EscapedConcat("\\`", EscapeMessage(t[1..]));
      } else if t[0] == '$' && |t| > 1 && t[1] == '{' {
        EscapedMessageIsEscaped(t[2..]);
        assert SpecialsEscaped("\\${");
        EscapedConcat("\\${", EscapeMessage(t[2..]));
      } else {
        EscapedMessageIsEscaped(t[1..]);
        if t[1..] != [] {
          EscapeFirst(t[1..]);
        }
        assert SpecialsEscaped([t[0]]);
        EscapedConcat([t[0]], EscapeMessage(t[1..]));
      }
    }
  }

  // ---------------------------------------------------------------------------
  // Shortening the working directory commutes with the escapes.
  // ---------------------------------------------------------------------------

  lemma NotPrefixByHead(p: string, s: string)
    requires p != [] && s != [] && p[0] != s[0]
    ensures !IsPrefix(p, s)
  {
  }

  lemma PrefixCons(p: string, c: char, y: string)
    requires p != []
    ensures IsPrefix(p, [c] + y) <==> p[0] == c && IsPrefix(p[1..], y)
  {
    if p[0] == c && IsPrefix(p[1..], y) {
      assert ([c] + y)[..|p|] == [c] + y[..|p| - 1];
    }
    if IsPrefix(p, [c] + y) {
      assert ([c] + y)[..|p|][1..] == y[..|p| - 1];
    }
  }

  /** A text of plain characters is a prefix of an escaped text exactly when it is one of the text. */
  lemma {:induction false} PlainPrefixOfEscape(p: string, x: string)
    requires AllPlain(p)
    ensures IsPrefix(p, EscapeMessage(x)) <==> IsPrefix(p, x)
    decreases |p|
  {
    if p != [] && x != [] {
      EscapeHead(x);
      EscapeFirst(x);
      var special := x[0] == '`' || (x[0] == '$' && |x| > 1 && x[1] == '{');
      if !special {
        PrefixCons(p, x[0], EscapeMessage(x[1..]));
        PrefixCons(p, x[0], x[1..]);
        assert x == [x[0]] + x[1..];
        assert AllPlain(p[1..]);
        PlainPrefixOfEscape(p[1..], x[1..]);
      }
    } else if p != [] {
      assert ReplaceAll(x, "`", "\\`") == [];
    }
  }

  /** Escaping a plain prefix leaves it as it is. */
  lemma {:induction false} EscapePlainPrefix(p: string, r: string)
    requires AllPlain(p)
    ensures EscapeMessage(p + r) == p + EscapeMessage(r)
    decreases |p|
  {
    if p == [] {
      assert p + r == r;
    } else {
      assert Plain(p[0]);
      assert (p + r)[0] == p[0];
      EscapeHead(p + r);
      assert (p + r)[1..] == p[1..] + r;
      assert AllPlain(p[1..]);
      EscapePlainPrefix(p[1..], r);
      assert p == [p[0]] + p[1..];
      assert p + EscapeMessage(r) == [p[0]] + (p[1..] + EscapeMessage(r));
    }
  }

  /** Shortening passes over a first character the working directory cannot start with. */
  lemma ShortenSkipsHead(c: char, x: string, cwd: string)
    requires |cwd| > 0 && cwd[0] != c
    ensures ReplaceAll([c] + x, cwd, ".") == [c] + ReplaceAll(x, cwd, ".")
  {
    NotPrefixByHead(cwd, [c] + x);
    assert ([c] + x)[1..] == x;
  }

  /** ShortenCommutes, for a text that starts with the working directory. */
  lemma ShortenCommutesAtCwd(t: string, cwd: string)
    requires |cwd| > 0 && AllPlain(cwd) && IsPrefix(cwd, t)
    requires ReplaceAll(EscapeMessage(t[|cwd|..]), cwd, ".") == EscapeMessage(ReplaceAll(t[|cwd|..], cwd, "."))
    ensures ReplaceAll(EscapeMessage(t), cwd, ".") == EscapeMessage(ReplaceAll(t, cwd, "."))
  {
    var r := t[|cwd|..];
    assert t == cwd + r;
    EscapePlainPrefix(cwd, r);
    PrefixOfConcat(cwd, EscapeMessage(r));
    assert (cwd + EscapeMessage(r))[|cwd|..] == EscapeMessage(r);
    EscapeHead("." + ReplaceAll(r, cwd, "."));
    assert ("." + ReplaceAll(r, cwd, "."))[1..] == ReplaceAll(r, cwd, ".");
  }

  /** Shortening passes over a prefix that holds no first character of the working directory. */
  lemma {:induction false} ShortenSkipsPrefix(p: string, x: string, cwd: string)
    requires |cwd| > 0 && forall i :: 0 <= i < |p| ==> p[i] != cwd[0]
    ensures ReplaceAll(p + x, cwd, ".") == p + ReplaceAll(x, cwd, ".")
    decreases |p|
  {
    if p == [] {
      assert p + x == x;
    } else {
      ShortenSkipsHead(p[0], p[1..] + x, cwd);
      assert p + x == [p[0]] + (p[1..] + x);
      ShortenSkipsPrefix(p[1..], x, cwd);
      assert p == [p[0]] + p[1..];
      assert p + ReplaceAll(x, cwd, ".") == [p[0]] + (p[1..] + ReplaceAll(x, cwd, "."));
    }
  }

  /** ShortenCommutes, for a text that starts with a backtick. */
  lemma ShortenCommutesAtBacktick(t: string, cwd: string)
    requires |cwd| > 0 && AllPlain(cwd) && t != [] && t[0] == '`'
    requires ReplaceAll(EscapeMessage(t[1..]), cwd, ".") == EscapeMessage(ReplaceAll(t[1..], cwd, "."))
    ensures ReplaceAll(EscapeMessage(t), cwd, ".") == EscapeMessage(ReplaceAll(t, cwd, "."))
  {
    assert Plain(cwd[0]);
    var x := ReplaceAll(t[1..], cwd, ".");
    EscapeHead(t);
    assert t == "`" + t[1..];
    ShortenSkipsPrefix("`", t[1..], cwd);
    EscapeHead("`" + x);
    assert ("`" + x)[1..] == x;
    ShortenSkipsPrefix("\\`", EscapeMessage(t[1..]), cwd);
  }

  /** ShortenCommutes, for a text that starts with "${". */
  lemma ShortenCommutesAtInterpolation(t: string, cwd: string)
    requires |cwd| > 0 && AllPlain(cwd) && |t| > 1 && t[0] == '$' && t[1] == '{'
    requires ReplaceAll(EscapeMessage(t[2..]), cwd, ".") == EscapeMessage(ReplaceAll(t[2..], cwd, "."))
    ensures ReplaceAll(EscapeMessage(t), cwd, ".") == EscapeMessage(ReplaceAll(t, cwd, "."))
  {
    assert Plain(cwd[0]);
    var x := ReplaceAll(t[2..], cwd, ".");
    EscapeHead(t);
    assert t == "${" + t[2..];
    ShortenSkipsPrefix("${", t[2..], cwd);
    EscapeHead("${" + x);
    assert ("${" + x)[2..] == x;
    ShortenSkipsPrefix("\\${", EscapeMessage(t[2..]), cwd);
  }

  /** ShortenCommutes, for a text that starts with any other character. */
  lemma ShortenCommutesAtOther(t: string, cwd: string)
    requires |cwd| > 0 && AllPlain(cwd) && t != [] && !IsPrefix(cwd, t)
    requires t[0] != '`' && !(t[0] == '$' && |t| > 1 && t[1] == '{')
    requires ReplaceAll(EscapeMessage(t[1..]), cwd, ".") == EscapeMessage(ReplaceAll(t[1..], cwd, "."))
    ensures ReplaceAll(EscapeMessage(t), cwd, ".") == EscapeMessage(ReplaceAll(t, cwd, "."))
  {
    var e := EscapeMessage(t[1..]);
    var x := ReplaceAll(t[1..], cwd, ".");
    EscapeHead(t);
    PlainPrefixOfEscape(cwd, t);
    assert ([t[0]] + e)[1..] == e;
    assert ReplaceAll(EscapeMessage(t), cwd, ".") == [t[0]] + ReplaceAll(e, cwd, ".");
    assert ReplaceAll(t, cwd, ".") == [t[0]] + x;
    if t[0] == '$' && x != [] {
      if IsPrefix(cwd, t[1..]) {
        assert x[0] == '.';
      } else {
        assert x[0] == t[1];
      }
    }
    EscapeHead([t[0]] + x);
    assert ([t[0]] + x)[1..] == x;
  }

  /**
   * For a working directory of plain characters, shortening it after the
   * escapes (as the source does) gives what shortening it first would.
   */
  lemma {:induction false} ShortenCommutes(t: string, cwd: string)
    requires |cwd| > 0 && AllPlain(cwd)
    ensures ReplaceAll(EscapeMessage(t), cwd, ".") == EscapeMessage(ReplaceAll(t, cwd, "."))
    decreases |t|
  {
    if t == [] {
      assert ReplaceAll(t, "`", "\\`") == [];
    } else if IsPrefix(cwd, t) {
      ShortenCommutes(t[|cwd|..], cwd);
      ShortenCommutesAtCwd(t, cwd);
    } else if t[0] == '`' {
      ShortenCommutes(t[1..], cwd);
      ShortenCommutesAtBacktick(t, cwd);
    } else if t[0] == '$' && |t| > 1 && t[1] == '{' {
      ShortenCommutes(t[2..], cwd);
      ShortenCommutesAtInterpolation(t, cwd);
    } else {
      ShortenCommutes(t[1..], cwd);
      ShortenCommutesAtOther(t, cwd);
    }
  }



  /** Shortening the working directory adds no backslash. */
  lemma {:induction false} ShortenKeepsNoBackslash(t: string, cwd: string)
    requires |cwd| > 0 && NoBackslash(t)
    ensures NoBackslash(ReplaceAll(t, cwd, "."))
    decreases |t|
  {
    if t != [] {
      if IsPrefix(cwd, t) {
        ShortenKeepsNoBackslash(t[|cwd|..], cwd);
      } else {
        ShortenKeepsNoBackslash(t[1..], cwd);
      }
    }
  }

  /**
   * The logged text of the artifact is the diagnostic with the working
   * directory shortened to ".", for every diagnostic without a backslash and
   * a working directory of plain characters.
   */
  lemma ErrorMessageRoundTrip(t: string, cwd: string)
    requires |cwd| > 0 && AllPlain(cwd) && NoBackslash(t)
    ensures TemplateText(ErrorMessage(t, cwd)) == Some(ReplaceAll(t, cwd, "."))
    ensures SpecialsEscaped(ErrorMessage(t, cwd))
  {
    ShortenCommutes(t, cwd);
    ShortenKeepsNoBackslash(t, cwd);
    EscapeRoundTrip(ReplaceAll(t, cwd, "."));
    EscapedMessageIsEscaped(ReplaceAll(t, cwd, "."));
  }

  // ---------------------------------------------------------------------------
  // The artifact and the callback that writes it.
  // ---------------------------------------------------------------------------

  const Style: string :=
    "width: 100%; margin: 20px; padding: 20px; font-size: 12px; background-color: white; color: #121212; border: 1px solid #d9534f; border-radius: 1px;"

  /** The message as HTML, in a styled preformatted block. */
  function PreBlock(html: string): string {
    "<pre style=\"" + Style + "\"><code>" + html + "</code></pre>"
  }

  /** The statement that replaces the page's body with the block. */
  function DisplayStatement(html: string): string {
    "document.body.innerHTML = `" + PreBlock(html) + "`;"
  }

  /** The statement that logs the message to the browser console. */
  function LogStatement(msg: string): string {
    "console.log(`" + msg + "`);"
  }

  /**
   * The script written in place of the bundle; `html` is the message turned
   * into HTML. After a blank first line it shows the message in the page,
   * then, on the next line, logs it to the console.
   */
  function ErrorFile(msg: string, html: string): (r: string)
    ensures IsPrefix("\n" + DisplayStatement(html) + "\n", r)
    ensures OccursAt(LogStatement(msg), r, |"\n" + DisplayStatement(html) + "\n"|)
    ensures Contains(r, PreBlock(html))
  {
    var head := "\n" + DisplayStatement(html) + "\n";
    var log := LogStatement(msg);
    var r := head + log + "\n  ";
    assert r[..|head|] == head;
    OccursBetween(head, log, "\n  ");
    var opening := "document.body.innerHTML = `";
    OccursBetween(opening, PreBlock(html), "`;");
    OccursWidened(PreBlock(html), DisplayStatement(html), |opening|, "\n", "\n");
    OccursExtended(PreBlock(html), head, 1 + |opening|, log);
    OccursExtended(PreBlock(html), head + log, 1 + |opening|, "\n  ");
    r
  }

  /** A diagnostic, as the bundler reports it. */
  datatype Diagnostic = Diagnostic(text: string)

  /**
   * `writeErrorInOutputFile(errorMessage, outputFile)`, after the
   * `onEnd` callback picked the first of the build's errors. The HTML
   * conversion is a parameter.
   */
  function ErrorArtifactText(errorMessage: string, cwd: string, ansiToHtml: string -> string): (r: string)
    requires |cwd| > 0
    ensures
      var msg := ErrorMessage(errorMessage, cwd);
      && IsPrefix("\n" + DisplayStatement(ansiToHtml(msg)) + "\n", r)
      && OccursAt(LogStatement(msg), r, |"\n" + DisplayStatement(ansiToHtml(msg)) + "\n"|)
  {
    var msg := ErrorMessage(errorMessage, cwd);
    ErrorFile(msg, ansiToHtml(msg))
  }

  /**
   * The `onEnd` callback: with errors, the artifact for the FIRST one is
   * written to the output file the callback reads; without errors nothing
   * is written.
   */
  method OnEnd(fs: FileSystem.FileSystem, errors: seq<Diagnostic>, outputFile: string, cwd: string,
               ansiToHtml: string -> string) returns (err: Option<FileSystem.FsError>)
    requires |cwd| > 0
    requires fs.Valid()
    modifies fs
    ensures fs.Valid()
    ensures |errors| == 0 ==> err.None? && fs.State() == old(fs.State())
    ensures |errors| > 0 ==>
      FileSystem.Outcome(err, fs.State())
        == FileSystem.WriteFile(old(fs.State()), outputFile, ErrorArtifactText(errors[0].text, cwd, ansiToHtml))
    ensures err.Some? ==> fs.State() == old(fs.State())
  {
    if |errors| > 0 {
      var error := errors[0];
      err := fs.WriteFileSync(outputFile, ErrorArtifactText(error.text, cwd, ansiToHtml));
    } else {
      err := None;
    }
  }
}
