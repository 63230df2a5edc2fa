/** The browser's cleanup of a bot message before it is shown: the literal
    two characters `\n` become a line break, invisible characters go, and
    `processMarkdown` turns `**x**` into bold and line breaks into `<br>`. */
module BotText {
  import opened Wrappers
  import opened JsString

  /** The characters a regular expression's `.` does not match. */
  predicate IsLineTerminator(c: char) {
    c == '\n' || c == '\r' || c == '\U{2028}' || c == '\U{2029}'
  }

  /** No line terminator in `s[j..k]`. */
  predicate LineFree(s: string, j: nat, k: nat)
    requires j <= k <= |s|
  {
    forall i :: j <= i < k ==> !IsLineTerminator(s[i])
  }

  /** `**` starts at index `i`. */
  predicate StarsAt(s: string, i: nat) {
    i + 2 <= |s| && s[i] == '*' && s[i + 1] == '*'
  }

  /** Where the lazy `(.*?)\*\*` that starts at `j` ends: the first `**`
      at or after `j` with no line terminator before it, if there is one. */
  function FindClose(s: string, j: nat): (r: Option<nat>)
    requires j <= |s|
    ensures r.Some? ==> j <= r.value && StarsAt(s, r.value) && LineFree(s, j, r.value)
    ensures r.Some? ==> forall i :: j <= i < r.value ==> !StarsAt(s, i)
    ensures r.None? ==> forall k :: j <= k <= |s| && StarsAt(s, k) ==> !LineFree(s, j, k)
    decreases |s| - j
  {
    if j + 2 > |s| then None
    else if StarsAt(s, j) then Some(j)
    else if IsLineTerminator(s[j]) then None
    else FindClose(s, j + 1)
  }

  /** The global lazy bold replacement, with `<strong>$1</strong>` as its
      replacement text: scanning left to right, each `**` that has a closing `**` later on the same
      line opens a bold run that ends at the nearest such closing. */
  function Bold(s: string): string
    decreases |s|
  {
    if s == [] then []
    else if StarsAt(s, 0) && FindClose(s, 2).Some? then
      var k := FindClose(s, 2).value;
      "<strong>" + s[2..k] + "</strong>" + Bold(s[k + 2..])
    else [s[0]] + Bold(s[1..])
  }

  /** A `**` is closed by the nearest `**` after it on its line. */
  lemma BoldPairs(s: string, k: nat)
    requires StarsAt(s, 0) && 2 <= k && StarsAt(s, k) && LineFree(s, 2, k)
    requires forall i :: 2 <= i < k ==> !StarsAt(s, i)
    ensures Bold(s) == "<strong>" + s[2..k] + "</strong>" + Bold(s[k + 2..])
  {
    assert FindClose(s, 2) == Some(k);
  }

  /** Text without `**` is left as it is. */
  lemma {:induction false} BoldUnchanged(s: string)
    requires forall i :: 0 <= i < |s| ==> !StarsAt(s, i)
    ensures Bold(s) == s
    decreases |s|
  {
    if s != [] {
      assert !StarsAt(s, 0);
      forall i | 0 <= i < |s[1..]| ensures !StarsAt(s[1..], i) {
        assert !StarsAt(s, i + 1);
      }
      BoldUnchanged(s[1..]);
    }
  }

  /** Searching for a closing `**` never looks past a line terminator. */
  lemma {:induction false} FindCloseStopsAtLine(a: string, t: char, b: string, j: nat)
    requires IsLineTerminator(t) && j <= |a|
    ensures FindClose(a + [t] + b, j) == FindClose(a, j)
    decreases |a| - j
  {
    var s := a + [t] + b;
    if j < |a| {
      assert s[j] == a[j];
      if j + 1 < |a| {
        assert s[j + 1] == a[j + 1];
      } else {
        assert s[j + 1] == t;
      }
      FindCloseStopsAtLine(a, t, b, j + 1);
    } else {
      assert s[j] == t;
    }
  }

  /** Bold never spans lines: the text before and after a line terminator
      is rewritten on its own. */
  lemma {:induction false} BoldByLine(a: string, t: char, b: string)
    requires IsLineTerminator(t)
    ensures Bold(a + [t] + b) == Bold(a) + [t] + Bold(b)
    decreases |a|
  {
    var s := a + [t] + b;
    if a == [] {
      assert s == [t] + b && !StarsAt(s, 0) && s[1..] == b;
      assert Bold(s) == [t] + Bold(b);
      assert Bold(a) + [t] + Bold(b) == [t] + Bold(b);
    } else if StarsAt(a, 0) && FindClose(a, 2).Some? {
      var k := FindClose(a, 2).value;
      BoldByLine(a[k + 2..], t, b);
      BoldByLineClosed(a, t, b, k);
    } else {
      BoldByLine(a[1..], t, b);
      BoldByLineOpen(a, t, b);
    }
  }

  /** The step of `BoldByLine` where `a` opens with a closed bold run. */
  lemma BoldByLineClosed(a: string, t: char, b: string, k: nat)
    requires IsLineTerminator(t) && a != [] && StarsAt(a, 0) && FindClose(a, 2) == Some(k)
    requires Bold(a[k + 2..] + [t] + b) == Bold(a[k + 2..]) + [t] + Bold(b)
    ensures Bold(a + [t] + b) == Bold(a) + [t] + Bold(b)
  {
    var s := a + [t] + b;
    SameStart(a, t, b);
    var rest := a[k + 2..];
    assert s[2..k] == a[2..k] && s[k + 2..] == rest + [t] + b;
    var bold := "<strong>" + a[2..k] + "</strong>";
    assert Bold(s) == bold + (Bold(rest) + [t] + Bold(b));
    assert Bold(a) == bold + Bold(rest);
    Regroup(bold, Bold(rest), t, Bold(b));
  }

  /** The step of `BoldByLine` where `a` starts with a character kept as is. */
  lemma BoldByLineOpen(a: string, t: char, b: string)
    requires IsLineTerminator(t) && a != [] && !(StarsAt(a, 0) && FindClose(a, 2).Some?)
    requires Bold(a[1..] + [t] + b) == Bold(a[1..]) + [t] + Bold(b)
    ensures Bold(a + [t] + b) == Bold(a) + [t] + Bold(b)
  {
    var s := a + [t] + b;
    SameStart(a, t, b);
    assert s[1..] == a[1..] + [t] + b;
    assert Bold(s) == [a[0]] + (Bold(a[1..]) + [t] + Bold(b));
    assert Bold(a) == [a[0]] + Bold(a[1..]);
    Regroup([a[0]], Bold(a[1..]), t, Bold(b));
  }

  lemma Regroup(x: string, y: string, t: char, z: string)
    ensures x + (y + [t] + z) == (x + y) + [t] + z
  {
  }

  /** Appending a line terminator and more text changes neither whether a
      non-empty text opens a bold run at its start nor where that run ends. */
  lemma SameStart(a: string, t: char, b: string)
    requires IsLineTerminator(t) && a != []
    ensures var s := a + [t] + b;
      && s[0] == a[0]
      && StarsAt(s, 0) == StarsAt(a, 0)
      && (StarsAt(a, 0) ==> FindClose(s, 2) == FindClose(a, 2))
  {
    var s := a + [t] + b;
    assert s[0] == a[0];
    if |a| == 1 {
      assert s[1] == t;
    } else {
      assert s[1] == a[1];
    }
    if StarsAt(a, 0) {
      FindCloseStopsAtLine(a, t, b, 2);
    }
  }

  /** The rewrite introduces no character beyond those of the two tags. */
  lemma {:induction false} BoldKeepsOut(s: string, c: char)
    requires c !in s && c !in "<strong></strong>"
    ensures c !in Bold(s)
    decreases |s|
  {
    if s != [] {
      if StarsAt(s, 0) && FindClose(s, 2).Some? {
        var k := FindClose(s, 2).value;
        assert c !in s[2..k];
        assert c !in s[k + 2..];
        BoldKeepsOut(s[k + 2..], c);
      } else {
        assert c !in s[1..];
        BoldKeepsOut(s[1..], c);
      }
    }
  }

  /** No two neighbouring characters are `b` then `n`. */
  predicate NoPair(s: string, b: char, n: char) {
    forall i :: 0 <= i < |s| - 1 ==> !(s[i] == b && s[i + 1] == n)
  }

  /** Replacing the pair `b n` by one character that is neither leaves no
      such pair behind, and the result begins with `n` exactly when the
      input does. */
  lemma {:induction false} ReplacePairLeavesNone(s: string, b: char, n: char, c: char)
    requires b != n && c != b && c != n
    ensures NoPair(ReplaceAll(s, [b, n], [c]), b, n)
    ensures var r := ReplaceAll(s, [b, n], [c]); (r != [] && r[0] == n) <==> (s != [] && s[0] == n)
    decreases |s|
  {
    if s != [] {
      if IsPrefix([b, n], s) {
        var rest := ReplaceAll(s[2..], [b, n], [c]);
        ReplacePairLeavesNone(s[2..], b, n, c);
        assert ReplaceAll(s, [b, n], [c]) == [c] + rest;
      } else {
        var rest := ReplaceAll(s[1..], [b, n], [c]);
        ReplacePairLeavesNone(s[1..], b, n, c);
        var r := [s[0]] + rest;
        assert ReplaceAll(s, [b, n], [c]) == r;
        if s[0] == b {
          assert !(s[1..] != [] && s[1..][0] == n);
        }
        forall i | 0 <= i < |r| - 1 ensures !(r[i] == b && r[i + 1] == n) {
          if i > 0 {
            assert r[i] == rest[i - 1] && r[i + 1] == rest[i];
          }
        }
      }
    }
  }

  /** The first step of the cleanup, `replace(/\\n/g, '\n')`: each
      backslash followed by `n` becomes a line feed. */
  function UnescapeNewlines(s: string): string {
    ReplaceAll(s, "\\n", "\n")
  }

  /** After the first step no backslash is followed by `n`. */
  lemma UnescapeLeavesNoEscape(s: string)
    ensures NoPair(UnescapeNewlines(s), '\\', 'n')
  {
    ReplacePairLeavesNone(s, '\\', 'n', '\n');
  }

  /** The characters the class from U+200B to U+200D plus U+FEFF covers: zero width space,
      non-joiner and joiner, and the byte order mark. */
  predicate IsInvisible(c: char) {
    '\U{200B}' <= c <= '\U{200D}' || c == '\U{FEFF}'
  }

  /** The second step: every invisible character is removed. */
  function StripInvisible(s: string): (r: string)
    ensures forall i :: 0 <= i < |r| ==> !IsInvisible(r[i])
    decreases |s|
  {
    if s == [] then []
    else if IsInvisible(s[0]) then StripInvisible(s[1..])
    else [s[0]] + StripInvisible(s[1..])
  }

  /** Everything else is kept: each other character occurs as often as
      before. */
  lemma {:induction false} StripInvisibleKeepsOthers(s: string, c: char)
    requires !IsInvisible(c)
    ensures multiset(StripInvisible(s))[c] == multiset(s)[c]
    decreases |s|
  {
    if s != [] {
      StripInvisibleKeepsOthers(s[1..], c);
      assert s == [s[0]] + s[1..];
      assert multiset(s) == multiset([s[0]]) + multiset(s[1..]);
      if !IsInvisible(s[0]) {
        assert multiset([s[0]] + StripInvisible(s[1..])) == multiset([s[0]]) + multiset(StripInvisible(s[1..]));
      }
    }
  }

  /** Text without invisible characters is left as it is. */
  lemma {:induction false} StripInvisibleUnchanged(s: string)
    requires forall i :: 0 <= i < |s| ==> !IsInvisible(s[i])
    ensures StripInvisible(s) == s
    decreases |s|
  {
    if s != [] {
      assert !IsInvisible(s[0]);
      StripInvisibleUnchanged(s[1..]);
    }
  }

  /** `processMarkdown`: bold, then `\n\n` to `<br><br>`, then `\n` to `<br>`. */
  function ProcessMarkdown(text: string): string {
    ReplaceAll(ReplaceAll(Bold(text), "\n\n", "<br><br>"), "\n", "<br>")
  }

  /** Replacing doubled `c` by two copies of `rep` and then single `c` by
      `rep` is the same as the single pass alone. */
  lemma {:induction false} DoubleThenSingle(s: string, c: char, rep: string)
    requires c !in rep
    ensures ReplaceAll(ReplaceAll(s, [c, c], rep + rep), [c], rep) == ReplaceAll(s, [c], rep)
    decreases |s|
  {
    if s != [] {
      if IsPrefix([c, c], s) {
        DoubledStep(s, c, rep);
      } else {
        var a := ReplaceAll(s[1..], [c, c], rep + rep);
        assert ReplaceAll(s, [c, c], rep + rep) == [s[0]] + a;
        DoubleThenSingle(s[1..], c, rep);
        if s[0] == c {
          assert ([s[0]] + a)[1..] == a;
          assert IsPrefix([c], [s[0]] + a);
        } else {
          ReplaceAllSkips([s[0]], a, c, rep);
        }
      }
    }
  }

  /** The step of `DoubleThenSingle` where `s` starts with `c c`. */
  lemma {:induction false} DoubledStep(s: string, c: char, rep: string)
    requires c !in rep && IsPrefix([c, c], s)
    ensures ReplaceAll(ReplaceAll(s, [c, c], rep + rep), [c], rep) == ReplaceAll(s, [c], rep)
    decreases |s|, 0
  {
    var a := ReplaceAll(s[2..], [c, c], rep + rep);
    UnfoldDouble(s, c, rep + rep);
    assert c !in rep + rep;
    ReplaceAllSkips(rep + rep, a, c, rep);
    DoubleThenSingle(s[2..], c, rep);
    UnfoldSingleTwice(s, c, rep);
  }

  lemma UnfoldDouble(s: string, c: char, rep: string)
    requires IsPrefix([c, c], s)
    ensures ReplaceAll(s, [c, c], rep) == rep + ReplaceAll(s[2..], [c, c], rep)
  {
  }

  lemma UnfoldSingleTwice(s: string, c: char, rep: string)
    requires IsPrefix([c, c], s)
    ensures ReplaceAll(s, [c], rep) == (rep + rep) + ReplaceAll(s[2..], [c], rep)
  {
    assert s[..2] == [c, c];
    assert s[1..][..1] == [c] && s[..1] == [c];
    assert s[1..][1..] == s[2..];
    var single := ReplaceAll(s[2..], [c], rep);
    assert ReplaceAll(s[1..], [c], rep) == rep + single;
    assert ReplaceAll(s, [c], rep) == rep + (rep + single);
  }

  /** The `\n\n` pass is redundant: `processMarkdown` is bold followed by
      one `\n` to `<br>` pass, and leaves no line feed. */
  lemma ProcessMarkdownBreaks(text: string)
    ensures ProcessMarkdown(text) == ReplaceAll(Bold(text), "\n", "<br>")
    ensures '\n' !in ProcessMarkdown(text)
  {
    assert "<br><br>" == "<br>" + "<br>";
    DoubleThenSingle(Bold(text), '\n', "<br>");
    ReplaceAllRemoves(ReplaceAll(Bold(text), "\n\n", "<br><br>"), '\n', "<br>");
  }

  /** What `onMessage` shows for a message whose `content` is a string. */
  function CleanBotText(content: string): string {
    ProcessMarkdown(StripInvisible(UnescapeNewlines(content)))
  }

  /** The shown text holds no invisible character and no line feed. */
  lemma CleanBotTextVisible(content: string, c: char)
    requires IsInvisible(c) || c == '\n'
    ensures c !in CleanBotText(content)
  {
    var stripped := StripInvisible(UnescapeNewlines(content));
    ProcessMarkdownBreaks(stripped);
    if IsInvisible(c) {
      assert c !in stripped;
      BoldKeepsOut(stripped, c);
      ReplaceAllKeepsOut(Bold(stripped), "\n", "<br>", c);
    }
  }

  /** A pattern whose first character `s` never holds does not occur in it. */
  lemma NothingAt(s: string, t: string)
    requires t != [] && forall i :: 0 <= i < |s| ==> s[i] != t[0]
    ensures !Contains(s, t)
  {
    ContainsAt(s, t);
    forall i | 0 <= i ensures !OccursAt(s, t, i) {
      if i < |s| {
        assert s[i] != t[0];
      }
    }
  }

  /** Text without backslashes, invisible characters, `*` or line
      terminators is shown as it is. */
  lemma PlainTextShownAsIs(content: string)
    requires forall i :: 0 <= i < |content| ==>
      content[i] != '\\' && content[i] != '*' && !IsInvisible(content[i]) && !IsLineTerminator(content[i])
    ensures CleanBotText(content) == content
  {
    NothingAt(content, "\\n");
    ReplaceAllAbsent(content, "\\n", "\n");
    StripInvisibleUnchanged(content);
    BoldUnchanged(content);
    ProcessMarkdownBreaks(content);
    NothingAt(content, "\n");
    ReplaceAllAbsent(content, "\n", "<br>");
  }

  /** The escape is undone before invisible characters are removed, so an
      invisible character between a backslash and `n` leaves the two
      characters `\n` in the shown text. */
  lemma HiddenEscapeSurvives()
    ensures CleanBotText(['\\', '\U{200B}', 'n']) == ['\\', 'n']
  {
    var s := ['\\', '\U{200B}', 'n'];
    NothingAt(s[1..], "\\n");
    ReplaceAllAbsent(s[1..], "\\n", "\n");
    assert !IsPrefix("\\n", s);
    assert UnescapeNewlines(s) == s;
    var t := ['\\', 'n'];
    assert StripInvisible(s[2..]) == s[2..];
    assert StripInvisible(s) == t;
    BoldUnchanged(t);
    ProcessMarkdownBreaks(t);
    NothingAt(t, "\n");
    ReplaceAllAbsent(t, "\n", "<br>");
  }

  /** `**hi**` becomes `<strong>hi</strong>`. */
  lemma BoldExample()
    ensures Bold("**hi**") == "<strong>hi</strong>"
  {
    var s := "**hi**";
    BoldPairs(s, 4);
    assert s[2..4] == "hi" && s[6..] == [];
  }
}
