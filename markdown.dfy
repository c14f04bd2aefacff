/**
 * The markdown renderer of lib/markdown.ts: HTML escaping, then a chain of
 * global replacements (line endings, line rules for headers, quotes and list
 * items, list wrapping, inline emphasis, code and links), then a paragraph
 * pass over blank-line separated blocks.
 */
module Markdown {
  import opened Js
  import opened Text
  import opened Regex

  // ---------------------------------------------------------------------------
  // Escaping

  /** The entity `escapeHtml` writes for one character. */
  function EscapeChar(c: char): (e: string)
    ensures c !in "&<>\"'" ==> e == [c]
    ensures c in "&<>\"'" ==> |e| >= 4 && e[0] == '&' && e[|e| - 1] == ';'
    ensures '<' !in e && '>' !in e && '"' !in e && '\'' !in e
    ensures NoBreaks([c]) ==> NoBreaks(e)
  {
    if c == '&' then "&amp;"
    else if c == '<' then "&lt;"
    else if c == '>' then "&gt;"
    else if c == '"' then "&quot;"
    else if c == '\'' then "&#039;"
    else [c]
  }

  /** `escapeHtml`: every character replaced by its entity. */
  function EscapeHtml(s: string): (r: string)
    ensures '<' !in r && '>' !in r && '"' !in r && '\'' !in r
    ensures '&' !in s && '<' !in s && '>' !in s && '"' !in s && '\'' !in s ==> r == s
    ensures |r| >= |s|
  {
    if s == [] then ""
    else
      assert s == [s[0]] + s[1..];
      EscapeChar(s[0]) + EscapeHtml(s[1..])
  }

  /** Escaping works character by character. */
  lemma {:induction false} EscapeAppend(a: string, b: string)
    ensures EscapeHtml(a + b) == EscapeHtml(a) + EscapeHtml(b)
    decreases |a|
  {
    if a != [] {
      var s := a + b;
      assert s[0] == a[0] && s[1..] == a[1..] + b;
      calc {
        EscapeHtml(s);
        { EscapeCons(s); }
        EscapeChar(a[0]) + EscapeHtml(a[1..] + b);
        { EscapeAppend(a[1..], b); }
        EscapeChar(a[0]) + (EscapeHtml(a[1..]) + EscapeHtml(b));
        { Associative(EscapeChar(a[0]), EscapeHtml(a[1..]), EscapeHtml(b)); }
        EscapeChar(a[0]) + EscapeHtml(a[1..]) + EscapeHtml(b);
        { EscapeCons(a); }
        EscapeHtml(a) + EscapeHtml(b);
      }
    } else {
      assert a + b == b;
    }
  }

  /** Escaping adds no line break. */
  lemma {:induction false} EscapeNoBreaks(s: string)
    requires NoBreaks(s)
    ensures NoBreaks(EscapeHtml(s))
    decreases |s|
  {
    if s != [] {
      var e, r := EscapeChar(s[0]), EscapeHtml(s[1..]);
      assert NoBreaks([s[0]]);
      EscapeNoBreaks(s[1..]);
      EscapeCons(s);
      NoBreaksAppend(e, r);
    }
  }

  lemma EscapeCons(s: string)
    requires s != []
    ensures EscapeHtml(s) == EscapeChar(s[0]) + EscapeHtml(s[1..])
  {
  }

  /** Reading the five entities back as the characters they stand for. */
  function Unescape(s: string): (r: string)
    ensures |r| <= |s|
  {
    if s == [] then ""
    else if StartsWith(s, "&amp;") then "&" + Unescape(s[5..])
    else if StartsWith(s, "&lt;") then "<" + Unescape(s[4..])
    else if StartsWith(s, "&gt;") then ">" + Unescape(s[4..])
    else if StartsWith(s, "&quot;") then "\"" + Unescape(s[6..])
    else if StartsWith(s, "&#039;") then "'" + Unescape(s[6..])
    else [s[0]] + Unescape(s[1..])
  }

  /** The entity of one character reads back as that character. */
  lemma UnescapeOne(c: char, rest: string)
    ensures Unescape(EscapeChar(c) + rest) == [c] + Unescape(rest)
  {
    var e := EscapeChar(c);
    var s := e + rest;
    assert s[..|e|] == e;
    assert s[|e|..] == rest;
    if c == '&' {
      assert StartsWith(s, "&amp;");
    } else if c == '<' {
      DiffersAt(s, "&amp;", 1);
      assert StartsWith(s, "&lt;");
    } else if c == '>' {
      DiffersAt(s, "&amp;", 1);
      DiffersAt(s, "&lt;", 1);
      assert StartsWith(s, "&gt;");
    } else if c == '"' {
      DiffersAt(s, "&amp;", 1);
      DiffersAt(s, "&lt;", 1);
      DiffersAt(s, "&gt;", 1);
      assert StartsWith(s, "&quot;");
    } else if c == '\'' {
      DiffersAt(s, "&amp;", 1);
      DiffersAt(s, "&lt;", 1);
      DiffersAt(s, "&gt;", 1);
      DiffersAt(s, "&quot;", 1);
      assert StartsWith(s, "&#039;");
    } else {
      assert s[0] == c;
      DiffersAt(s, "&amp;", 0);
      DiffersAt(s, "&lt;", 0);
      DiffersAt(s, "&gt;", 0);
      DiffersAt(s, "&quot;", 0);
      DiffersAt(s, "&#039;", 0);
      assert s[1..] == rest;
    }
  }

  /** Escaping loses nothing: the entities read back as the original text. */
  lemma {:induction false} UnescapeEscape(s: string)
    ensures Unescape(EscapeHtml(s)) == s
  {
    if s != [] {
      UnescapeEscape(s[1..]);
      UnescapeOne(s[0], EscapeHtml(s[1..]));
      assert s == [s[0]] + s[1..];
    }
  }

  // ---------------------------------------------------------------------------
  // Line endings

  /** `clean.replace(/\r\n/g, "\n")` */
  function NormalizeNewlines(s: string): string
  {
    ReplaceAll(CrLf, [Lit("\n")], s)
  }

  /** The text with every carriage return that directly precedes a newline removed. */
  function DropCrBeforeLf(s: string): string
  {
    if s == [] then ""
    else if s[0] == '\r' && |s| >= 2 && s[1] == '\n' then DropCrBeforeLf(s[1..])
    else [s[0]] + DropCrBeforeLf(s[1..])
  }

  /** Normalising line endings removes exactly the `\r` of each `\r\n` pair. */
  lemma {:induction false} NormalizeNewlinesDropsCr(s: string)
    ensures NormalizeNewlines(s) == DropCrBeforeLf(s)
    decreases |s|
  {
    if s != [] {
      if |s| >= 2 && s[0] == '\r' && s[1] == '\n' {
        assert s[..2] == "\r\n";
        NormalizeNewlinesDropsCr(s[2..]);
        assert s[1..][1..] == s[2..];
        assert s[1..][0] == '\n';
      } else {
        NormalizeNewlinesDropsCr(s[1..]);
      }
    }
  }

  // ---------------------------------------------------------------------------
  // Line rules

  /** An opening tag with a class attribute, as the templates write them. */
  function Tag(name: string, classes: string): (r: string)
    ensures |r| >= 2 && r[0] == '<' && r[|r| - 1] == '>'
  {
    "<" + name + " class=\"" + classes + "\">"
  }

  lemma TagMarkup(name: string, classes: string)
    requires Markup(name) && Markup(classes)
    ensures Markup(Tag(name, classes))
  {
    assert Markup("<") && Markup(" class=\"") && Markup("\">");
    MarkupAppend("<", name);
    MarkupAppend("<" + name, " class=\"");
    MarkupAppend("<" + name + " class=\"", classes);
    MarkupAppend("<" + name + " class=\"" + classes, "\">");
  }

  /** The characters the templates are written with: no line terminator, no markdown marker. */
  predicate MarkupChar(c: char)
  {
    ('a' <= c <= 'z') || ('0' <= c <= '9') || c == ' ' || c == '-' || c == '/' || c == ':' || c == '.'
    || c == '<' || c == '>' || c == '"' || c == '=' || c == '_'
  }

  predicate Markup(s: string)
  {
    forall i :: 0 <= i < |s| ==> MarkupChar(s[i])
  }

  lemma MarkupAppend(a: string, b: string)
    requires Markup(a) && Markup(b)
    ensures Markup(a + b)
  {
    forall i | 0 <= i < |a + b| ensures MarkupChar((a + b)[i]) {
      if i < |a| {
        assert (a + b)[i] == a[i];
      } else {
        assert (a + b)[i] == b[i - |a|];
      }
    }
  }

  lemma MarkupNoBreaks(s: string)
    requires Markup(s)
    ensures NoBreaks(s)
  {
  }

  // The class lists of lib/markdown.ts, spelled in short pieces.
  const H3Classes: string := "text-lg font-bold" + " text-white mt-4" + " mb-2"
  const H2Classes: string := "text-xl font-bold" + " text-white mt-5" + " mb-3 border-b" + " border-white/10" + " pb-1"
  const H1Classes: string := "text-2xl" + " font-black" + " text-white mt-6" + " mb-4"
  const QuoteClasses: string :=
    "border-l-4" + " border-emerald" + "-500 pl-4 py-1" + " my-4 bg-white/5" + " text-white/80" + " italic" + " rounded-r"
  const LiClasses: string := "ml-4 list-disc" + " marker:text-" + "emerald-400 pl-1"

  const H3Open: string := Tag("h3", H3Classes)
  const H3Close: string := "</h3>"
  const H2Open: string := Tag("h2", H2Classes)
  const H2Close: string := "</h2>"
  const H1Open: string := Tag("h1", H1Classes)
  const H1Close: string := "</h1>"
  const QuoteOpen: string := Tag("blockquote", QuoteClasses)
  const QuoteClose: string := "</blockquote>"
  const LiOpen: string := Tag("li", LiClasses)
  const LiClose: string := "</li>"

  /** The replacements anchored with `^` and `$` under the `gm` flags, in the order they run. */
  datatype LineRule =
    | H3     // /^### (.*$)/gm
    | H2     // /^## (.*$)/gm
    | H1     // /^# (.*$)/gm
    | Quote  // /^(&gt;|>) (.*$)/gm
    | Item   // /^- (.*$)/gm

  /**
   * One rule on one line (no line terminator inside): `(.*$)` takes the rest
   * of the line, so a line with the prefix is replaced as a whole.
   */
  function ApplyLine(rule: LineRule, line: string): (r: string)
    ensures line != [] && line[0] == '<' ==> r == line
  {
    match rule
    case H3 => if StartsWith(line, "### ") then H3Open + line[4..] + H3Close else line
    case H2 => if StartsWith(line, "## ") then H2Open + line[3..] + H2Close else line
    case H1 => if StartsWith(line, "# ") then H1Open + line[2..] + H1Close else line
    case Quote =>
      if StartsWith(line, "&gt; ") then QuoteOpen + line[5..] + QuoteClose
      else if StartsWith(line, "> ") then QuoteOpen + line[2..] + QuoteClose
      else line
    case Item => if StartsWith(line, "- ") then LiOpen + line[2..] + LiClose else line
  }

  /**
   * A `^...$` replacement over the whole text: `^` matches after any line
   * terminator and `.` matches anything but one, so each line is rewritten
   * on its own and the terminators are kept.
   */
  function MapLines(rule: LineRule, s: string): string
    decreases |s|
  {
    var k := LineEnd(s);
    if k == |s| then ApplyLine(rule, s)
    else ApplyLine(rule, s[..k]) + [s[k]] + MapLines(rule, s[k + 1..])
  }

  /** The five line rules in source order. */
  function LineStage(s: string): string
  {
    MapLines(Item, MapLines(Quote, MapLines(H1, MapLines(H2, MapLines(H3, s)))))
  }

  /** What one line becomes, by its prefix. */
  function RenderLine(line: string): string
  {
    if StartsWith(line, "### ") then H3Open + line[4..] + H3Close
    else if StartsWith(line, "## ") then H2Open + line[3..] + H2Close
    else if StartsWith(line, "# ") then H1Open + line[2..] + H1Close
    else if StartsWith(line, "&gt; ") then QuoteOpen + line[5..] + QuoteClose
    else if StartsWith(line, "> ") then QuoteOpen + line[2..] + QuoteClose
    else if StartsWith(line, "- ") then LiOpen + line[2..] + LiClose
    else line
  }

  /** Each rule applied to each line. */
  function ApplyEach(rule: LineRule, lines: seq<string>): (r: seq<string>)
    ensures |r| == |lines|
    ensures forall k :: 0 <= k < |lines| ==> r[k] == ApplyLine(rule, lines[k])
  {
    if lines == [] then [] else [ApplyLine(rule, lines[0])] + ApplyEach(rule, lines[1..])
  }

  /** A line with no line terminator in it. */
  predicate NoBreaks(s: string)
  {
    forall i :: 0 <= i < |s| ==> !IsLineTerminator(s[i])
  }

  predicate AllNoBreaks(lines: seq<string>)
  {
    forall k :: 0 <= k < |lines| ==> NoBreaks(lines[k])
  }

  lemma NoBreaksSlice(s: string, i: nat, j: nat)
    requires NoBreaks(s) && i <= j <= |s|
    ensures NoBreaks(s[i..j])
  {
    forall k | 0 <= k < j - i ensures !IsLineTerminator(s[i..j][k]) {
      assert s[i..j][k] == s[i + k];
    }
  }

  lemma LineEndNoBreaks(x: string, t: string)
    requires NoBreaks(x) && (t == [] || t[0] == '\n')
    ensures LineEnd(x + t) == |x|
  {
    forall i | 0 <= i < |x| ensures !IsLineTerminator((x + t)[i]) {
      assert (x + t)[i] == x[i];
    }
    if t != [] {
      assert (x + t)[|x|] == '\n';
    }
  }

  lemma TemplatesNoBreaks()
    ensures NoBreaks(H3Open) && NoBreaks(H3Close) && NoBreaks(H2Open) && NoBreaks(H2Close)
    ensures NoBreaks(H1Open) && NoBreaks(H1Close) && NoBreaks(QuoteOpen) && NoBreaks(QuoteClose)
    ensures NoBreaks(LiOpen) && NoBreaks(LiClose)
  {
    H3Markup();
    MarkupNoBreaks(H3Open);
    H2Markup();
    MarkupNoBreaks(H2Open);
    H1Markup();
    MarkupNoBreaks(H1Open);
    QuoteMarkup();
    MarkupNoBreaks(QuoteOpen);
    LiMarkup();
    MarkupNoBreaks(LiOpen);
    ClosesMarkup();
    MarkupNoBreaks(H3Close);
    MarkupNoBreaks(H2Close);
    MarkupNoBreaks(H1Close);
    MarkupNoBreaks(QuoteClose);
    MarkupNoBreaks(LiClose);
  }

  lemma ClosesMarkup()
    ensures Markup(H3Close) && Markup(H2Close) && Markup(H1Close) && Markup(QuoteClose) && Markup(LiClose)
  {
  }

  lemma H3Markup()
    ensures Markup(H3Open)
  {
    assert Markup("text-lg font-bold");
    assert Markup(" text-white mt-4");
    assert Markup(" mb-2");
    MarkupAppend("text-lg font-bold", " text-white mt-4");
    MarkupAppend("text-lg font-bold" + " text-white mt-4", " mb-2");
    assert Markup("h3");
    TagMarkup("h3", H3Classes);
  }

  lemma H2Markup()
    ensures Markup(H2Open)
  {
    assert Markup("text-xl font-bold");
    assert Markup(" text-white mt-5");
    assert Markup(" mb-3 border-b");
    assert Markup(" border-white/10");
    assert Markup(" pb-1");
    MarkupAppend("text-xl font-bold", " text-white mt-5");
    MarkupAppend("text-xl font-bold" + " text-white mt-5", " mb-3 border-b");
    MarkupAppend("text-xl font-bold" + " text-white mt-5" + " mb-3 border-b", " border-white/10");
    MarkupAppend("text-xl font-bold" + " text-white mt-5" + " mb-3 border-b" + " border-white/10", " pb-1");
    assert Markup("h2");
    TagMarkup("h2", H2Classes);
  }

  lemma H1Markup()
    ensures Markup(H1Open)
  {
    assert Markup("text-2xl");
    assert Markup(" font-black");
    assert Markup(" text-white mt-6");
    assert Markup(" mb-4");
    MarkupAppend("text-2xl", " font-black");
    MarkupAppend("text-2xl" + " font-black", " text-white mt-6");
    MarkupAppend("text-2xl" + " font-black" + " text-white mt-6", " mb-4");
    assert Markup("h1");
    TagMarkup("h1", H1Classes);
  }

  lemma QuoteMarkup()
    ensures Markup(QuoteOpen)
  {
    assert Markup("border-l-4");
    assert Markup(" border-emerald");
    assert Markup("-500 pl-4 py-1");
    assert Markup(" my-4 bg-white/5");
    assert Markup(" text-white/80");
    assert Markup(" italic");
    assert Markup(" rounded-r");
    MarkupAppend("border-l-4", " border-emerald");
    MarkupAppend("border-l-4" + " border-emerald", "-500 pl-4 py-1");
    MarkupAppend("border-l-4" + " border-emerald" + "-500 pl-4 py-1", " my-4 bg-white/5");
    MarkupAppend("border-l-4" + " border-emerald" + "-500 pl-4 py-1" + " my-4 bg-white/5", " text-white/80");
    MarkupAppend("border-l-4" + " border-emerald" + "-500 pl-4 py-1" + " my-4 bg-white/5" + " text-white/80", " italic");
    MarkupAppend("border-l-4" + " border-emerald" + "-500 pl-4 py-1" + " my-4 bg-white/5" + " text-white/80" + " italic", " rounded-r");
    assert Markup("blockquote");
    TagMarkup("blockquote", QuoteClasses);
  }

  lemma LiMarkup()
    ensures Markup(LiOpen)
  {
    assert Markup("ml-4 list-disc");
    assert Markup(" marker:text-");
    assert Markup("emerald-400 pl-1");
    MarkupAppend("ml-4 list-disc", " marker:text-");
    MarkupAppend("ml-4 list-disc" + " marker:text-", "emerald-400 pl-1");
    assert Markup("li");
    TagMarkup("li", LiClasses);
  }

  /** A line rule rewrites a text of lines line by line. */
  lemma {:induction false} MapLinesJoin(rule: LineRule, lines: seq<string>)
    requires |lines| >= 1 && AllNoBreaks(lines)
    ensures MapLines(rule, Join(lines, "\n")) == Join(ApplyEach(rule, lines), "\n")
  {
    var l := lines[0];
    if |lines| == 1 {
      LineEndNoBreaks(l, "");
      assert l + "" == l;
    } else {
      var rest := lines[1..];
      JoinJoin(l, rest, "\n");
      assert [l] + rest == lines;
      MapLinesStep(rule, l, Join(rest, "\n"));
      MapLinesJoin(rule, rest);
      var applied := ApplyEach(rule, lines);
      assert applied == [applied[0]] + ApplyEach(rule, rest);
      JoinJoin(applied[0], ApplyEach(rule, rest), "\n");
    }
  }

  /** The first line of a text is rewritten on its own. */
  lemma MapLinesStep(rule: LineRule, l: string, rest: string)
    requires NoBreaks(l)
    ensures MapLines(rule, l + "\n" + rest) == ApplyLine(rule, l) + "\n" + MapLines(rule, rest)
  {
    var s := l + "\n" + rest;
    assert s == l + ("\n" + rest);
    LineEndNoBreaks(l, "\n" + rest);
    assert s[..|l|] == l;
    assert s[|l|] == '\n';
    assert s[|l| + 1..] == rest;
  }

  lemma NoBreaksAppend(a: string, b: string)
    requires NoBreaks(a) && NoBreaks(b)
    ensures NoBreaks(a + b)
  {
    forall i | 0 <= i < |a + b| ensures !IsLineTerminator((a + b)[i]) {
      if i < |a| {
        assert (a + b)[i] == a[i];
      } else {
        assert (a + b)[i] == b[i - |a|];
      }
    }
  }

  /** A tag around a terminator-free text is terminator-free. */
  lemma WrapNoBreaks(open: string, body: string, close: string)
    requires NoBreaks(open) && NoBreaks(body) && NoBreaks(close)
    ensures NoBreaks(open + body + close)
  {
    NoBreaksAppend(open, body);
    NoBreaksAppend(open + body, close);
  }

  /** A line rule keeps a line free of terminators. */
  lemma ApplyLineNoBreaks(rule: LineRule, line: string)
    requires NoBreaks(line)
    ensures NoBreaks(ApplyLine(rule, line))
  {
    TemplatesNoBreaks();
    match rule
    case H3 =>
      if StartsWith(line, "### ") {
        NoBreaksSlice(line, 4, |line|);
        WrapNoBreaks(H3Open, line[4..], H3Close);
      }
    case H2 =>
      if StartsWith(line, "## ") {
        NoBreaksSlice(line, 3, |line|);
        WrapNoBreaks(H2Open, line[3..], H2Close);
      }
    case H1 =>
      if StartsWith(line, "# ") {
        NoBreaksSlice(line, 2, |line|);
        WrapNoBreaks(H1Open, line[2..], H1Close);
      }
    case Quote =>
      if StartsWith(line, "&gt; ") {
        NoBreaksSlice(line, 5, |line|);
        WrapNoBreaks(QuoteOpen, line[5..], QuoteClose);
      } else if StartsWith(line, "> ") {
        NoBreaksSlice(line, 2, |line|);
        WrapNoBreaks(QuoteOpen, line[2..], QuoteClose);
      }
    case Item =>
      if StartsWith(line, "- ") {
        NoBreaksSlice(line, 2, |line|);
        WrapNoBreaks(LiOpen, line[2..], LiClose);
      }
  }

  lemma EachNoBreaks(rule: LineRule, lines: seq<string>)
    requires AllNoBreaks(lines)
    ensures AllNoBreaks(ApplyEach(rule, lines))
  {
    forall k | 0 <= k < |lines| ensures NoBreaks(ApplyEach(rule, lines)[k]) {
      ApplyLineNoBreaks(rule, lines[k]);
    }
  }

  /** The five rules in a row treat a line as its prefix says: no line is rewritten twice. */
  lemma LineRulesInOrder(line: string)
    ensures ApplyLine(Item, ApplyLine(Quote, ApplyLine(H1, ApplyLine(H2, ApplyLine(H3, line))))) == RenderLine(line)
  {
    TemplateHeads();
    var r := RenderLine(line);
    if StartsWith(line, "### ") {
      assert ApplyLine(H3, line) == r;
      assert r[0] == '<';
    } else if StartsWith(line, "## ") {
      assert ApplyLine(H3, line) == line;
      assert ApplyLine(H2, line) == r;
      assert r[0] == '<';
    } else if StartsWith(line, "# ") {
      assert ApplyLine(H2, ApplyLine(H3, line)) == line;
      assert ApplyLine(H1, line) == r;
      assert r[0] == '<';
    } else if StartsWith(line, "&gt; ") || StartsWith(line, "> ") {
      assert ApplyLine(H1, ApplyLine(H2, ApplyLine(H3, line))) == line;
      assert ApplyLine(Quote, line) == r;
      assert r[0] == '<';
    } else {
      assert ApplyLine(Quote, ApplyLine(H1, ApplyLine(H2, ApplyLine(H3, line)))) == line;
    }
  }

  lemma TemplateHeads()
    ensures H3Open[0] == '<' && H2Open[0] == '<' && H1Open[0] == '<' && QuoteOpen[0] == '<' && LiOpen[0] == '<'
  {
  }

  function RenderEach(lines: seq<string>): (r: seq<string>)
    ensures |r| == |lines|
    ensures forall k :: 0 <= k < |lines| ==> r[k] == RenderLine(lines[k])
  {
    if lines == [] then [] else [RenderLine(lines[0])] + RenderEach(lines[1..])
  }

  /**
   * The line rules turn a text of lines into the text of the rendered lines:
   * every line is rewritten by its own prefix and no line is rewritten twice.
   */
  lemma LineStageByLine(lines: seq<string>)
    requires |lines| >= 1 && AllNoBreaks(lines)
    ensures LineStage(Join(lines, "\n")) == Join(RenderEach(lines), "\n")
  {
    var l3 := ApplyEach(H3, lines);
    var l2 := ApplyEach(H2, l3);
    var l1 := ApplyEach(H1, l2);
    var lq := ApplyEach(Quote, l1);
    EachNoBreaks(H3, lines);
    EachNoBreaks(H2, l3);
    EachNoBreaks(H1, l2);
    EachNoBreaks(Quote, l1);
    MapLinesJoin(H3, lines);
    MapLinesJoin(H2, l3);
    MapLinesJoin(H1, l2);
    MapLinesJoin(Quote, l1);
    MapLinesJoin(Item, lq);
    EachInOrder(lines);
  }

  lemma EachInOrder(lines: seq<string>)
    ensures ApplyEach(Item, ApplyEach(Quote, ApplyEach(H1, ApplyEach(H2, ApplyEach(H3, lines))))) == RenderEach(lines)
  {
    var li := ApplyEach(Item, ApplyEach(Quote, ApplyEach(H1, ApplyEach(H2, ApplyEach(H3, lines)))));
    forall k | 0 <= k < |lines| ensures li[k] == RenderEach(lines)[k] {
      LineRulesInOrder(lines[k]);
    }
  }

  // ---------------------------------------------------------------------------
  // List wrapping

  const UlOpen: string := Tag("ul", "my-3 space-y-1" + " text-white/90")
  const UlClose: string := "</ul>"

  /** `'<ul ...>$1</ul>'` */
  const UlTemplate: seq<Piece> := [Lit(UlOpen), Group(1), Lit(UlClose)]

  /** The list template puts the whole match between the `<ul>` tags. */
  lemma ExpandUl(g: string)
    ensures Expand(UlTemplate, [g, g]) == UlOpen + g + UlClose
  {
    var gs := [g, g];
    assert [Lit(UlClose)][1..] == [];
    assert Expand([Lit(UlClose)], gs) == UlClose + "";
    assert [Group(1), Lit(UlClose)][1..] == [Lit(UlClose)];
    assert Expand([Group(1), Lit(UlClose)], gs) == g + UlClose;
    assert UlTemplate[1..] == [Group(1), Lit(UlClose)];
  }

  /** A line as the list-item rule leaves it: `<li`, then the rest of the line up to a final `</li>`. */
  predicate ItemLine(l: string)
  {
    |l| >= 8 && StartsWith(l, "<li") && l[|l| - 5..] == LiClose && NoBreaks(l)
  }

  /** Any other line: `<li` occurs nowhere in it. */
  predicate PlainLine(l: string)
  {
    NoBreaks(l) && Free(l, "<li")
  }

  /** Lines of the two kinds only, as the line rules leave escaped text. */
  predicate ListReady(lines: seq<string>)
  {
    forall k :: 0 <= k < |lines| ==> ItemLine(lines[k]) || PlainLine(lines[k])
  }

  /** The number of item lines `lines` starts with. */
  function RunLength(lines: seq<string>): (n: nat)
    ensures n <= |lines|
    ensures forall k :: 0 <= k < n ==> ItemLine(lines[k])
    ensures n < |lines| ==> !ItemLine(lines[n])
  {
    if lines == [] || !ItemLine(lines[0]) then 0 else 1 + RunLength(lines[1..])
  }

  /** The lines with each maximal run of item lines joined into one `<ul>` line. */
  function GroupRuns(lines: seq<string>): (r: seq<string>)
    ensures |r| <= |lines|
    ensures |lines| >= 1 ==> |r| >= 1
    decreases |lines|
  {
    if lines == [] then []
    else
      var k := RunLength(lines);
      if k == 0 then [lines[0]] + GroupRuns(lines[1..])
      else [UlOpen + Join(lines[..k], "\n") + UlClose] + GroupRuns(lines[k..])
  }

  /** An item line followed by a newline or by nothing is one `<li.*<\/li>`, whole. */
  lemma LiItemLine(l: string, t: string)
    requires ItemLine(l) && (t == [] || t[0] == '\n')
    ensures LiItem(l + t) == |l|
  {
    var s := l + t;
    assert StartsWith(s, "<li") by {
      assert s[..3] == l[..3];
    }
    var rest := s[3..];
    assert rest == l[3..] + t;
    ItemBody(l, t);
    LastClose(l[3..]);
  }

  /** After the opening `<li`, an item line runs to its end. */
  lemma ItemBody(l: string, t: string)
    requires ItemLine(l) && (t == [] || t[0] == '\n')
    ensures LineEnd(l[3..] + t) == |l| - 3
    ensures (l[3..] + t)[..|l| - 3] == l[3..]
  {
    NoBreaksSlice(l, 3, |l|);
    assert l[3..|l|] == l[3..];
    LineEndNoBreaks(l[3..], t);
  }

  /** The last `</li>` of the text after `<li` is the closing one. */
  lemma LastClose(b: string)
    requires |b| >= 5 && b[|b| - 5..] == LiClose
    ensures LastIndexOf(b, "</li>") == Some(|b| - 5)
  {
    assert b[|b| - 5..|b|] == b[|b| - 5..];
    assert Occurs(b, "</li>", |b| - 5);
  }

  /** No `<li` starts inside a plain line, nor at the newline after it. */
  lemma NotLiAt(l: string, t: string, i: nat)
    requires PlainLine(l) && (t == [] || t[0] == '\n') && i <= |l|
    ensures !StartsWith((l + t)[i..], "<li")
  {
    var u := (l + t)[i..];
    if i + 3 <= |l| {
      assert u[..3] == l[i..i + 3];
      assert !Occurs(l, "<li", i);
    } else if |u| >= 3 {
      assert u[|l| - i] == '\n';
    }
  }

  /** The corrected list expression finds nothing inside a plain line or at its newline. */
  lemma PlainLineSkipped(p: Pattern, l: string, t: string)
    requires p == ListBlock || p == ListRun
    requires PlainLine(l) && (t == [] || t[0] == '\n')
    ensures forall i :: 0 <= i <= |l| ==> Find(p, (l + t)[i..]).None?
  {
    forall i | 0 <= i <= |l| ensures Find(p, (l + t)[i..]).None? {
      NotLiAt(l, t, i);
    }
  }

  /** Further items, each after a newline, are taken up to the end of the run. */
  lemma {:induction false} LiMoreJoin(run: seq<string>, tail: string)
    requires |run| >= 1 && forall k :: 0 <= k < |run| ==> ItemLine(run[k])
    requires tail == [] || (tail[0] == '\n' && LiItem(tail[1..]) == 0)
    ensures LiMore("\n" + Join(run, "\n") + tail) == 1 + |Join(run, "\n")|
    decreases |run|
  {
    if |run| == 1 {
      LiMoreStep(run[0], tail);
      assert LiMore(tail) == 0;
    } else {
      var more := "\n" + Join(run[1..], "\n") + tail;
      JoinJoin(run[0], run[1..], "\n");
      assert [run[0]] + run[1..] == run;
      assert "\n" + Join(run, "\n") + tail == "\n" + run[0] + more;
      LiMoreStep(run[0], more);
      LiMoreJoin(run[1..], tail);
    }
  }

  /** One more item after a newline. */
  lemma LiMoreStep(l: string, more: string)
    requires ItemLine(l) && (more == [] || more[0] == '\n')
    ensures LiMore("\n" + l + more) == 1 + |l| + LiMore(more)
  {
    var s := "\n" + l + more;
    var t := l + more;
    assert s == "\n" + t by {
      Associative("\n", l, more);
    }
    assert s[1..] == t by {
      AfterFirst("\n", t);
    }
    assert LiItem(t) == |l| by {
      LiItemLine(l, more);
    }
    LiMoreUnfold(s);
    assert s[1 + |l|..] == more;
  }

  lemma AfterFirst(c: string, t: string)
    requires |c| == 1
    ensures (c + t)[1..] == t && (c + t)[0] == c[0]
  {
  }

  /** One step of `LiMore` on a text that starts with a newline and an item. */
  lemma LiMoreUnfold(s: string)
    requires s != [] && s[0] == '\n' && LiItem(s[1..]) > 0
    ensures LiMore(s) == 1 + LiItem(s[1..]) + LiMore(s[1 + LiItem(s[1..])..])
  {
  }

  /** The corrected list expression matches a whole run of item lines and nothing more. */
  lemma FindRun(run: seq<string>, tail: string)
    requires |run| >= 1 && forall k :: 0 <= k < |run| ==> ItemLine(run[k])
    requires tail == [] || (tail[0] == '\n' && LiItem(tail[1..]) == 0)
    ensures Find(ListBlock, Join(run, "\n") + tail) == Some(Hit(|Join(run, "\n")|, [Join(run, "\n"), Join(run, "\n")]))
  {
    var j := Join(run, "\n");
    var s := j + tail;
    assert LiItem(s) > 0 && LiItem(s) + LiMore(s[LiItem(s)..]) == |j| by {
      RunMatched(run, tail);
    }
    var n := |j|;
    assert Find(ListBlock, s) == Some(Hit(n, [s[..n], s[..n]])) by {
      FindListBlock(s);
    }
    assert s[..n] == j;
  }

  /** The run, and only the run, is taken by `<li.*<\/li>(\n<li.*<\/li>)*`. */
  lemma RunMatched(run: seq<string>, tail: string)
    requires |run| >= 1 && forall k :: 0 <= k < |run| ==> ItemLine(run[k])
    requires tail == [] || (tail[0] == '\n' && LiItem(tail[1..]) == 0)
    ensures var s := Join(run, "\n") + tail;
      LiItem(s) > 0 && LiItem(s) + LiMore(s[LiItem(s)..]) == |Join(run, "\n")|
  {
    if |run| == 1 {
      assert Join(run, "\n") == run[0];
      ItemThenTail(run[0], tail);
    } else {
      ItemThenRun(run, tail);
    }
  }

  lemma ItemThenTail(l: string, tail: string)
    requires ItemLine(l)
    requires tail == [] || (tail[0] == '\n' && LiItem(tail[1..]) == 0)
    ensures LiItem(l + tail) == |l| && LiMore((l + tail)[|l|..]) == 0
  {
    LiItemLine(l, tail);
    assert (l + tail)[|l|..] == tail;
  }

  lemma ItemThenRun(run: seq<string>, tail: string)
    requires |run| >= 2 && forall k :: 0 <= k < |run| ==> ItemLine(run[k])
    requires tail == [] || (tail[0] == '\n' && LiItem(tail[1..]) == 0)
    ensures var s := Join(run, "\n") + tail;
      LiItem(s) == |run[0]| && |run[0]| + LiMore(s[|run[0]|..]) == |Join(run, "\n")|
  {
    var s := Join(run, "\n") + tail;
    var j1 := Join(run[1..], "\n");
    var more := "\n" + j1 + tail;
    assert Join(run, "\n") == run[0] + "\n" + j1 by {
      JoinJoin(run[0], run[1..], "\n");
      assert [run[0]] + run[1..] == run;
    }
    assert s == run[0] + more by {
      Regroup4(run[0], "\n", j1, tail);
    }
    assert LiItem(s) == |run[0]| by {
      LiItemLine(run[0], more);
    }
    assert s[|run[0]|..] == more by {
      AfterPrefix(run[0], more);
    }
    assert LiMore(more) == 1 + |j1| by {
      LiMoreJoin(run[1..], tail);
    }
  }

  /** A plain line at the end of the text is copied by either list expression. */
  lemma WrapPlainLast(p: Pattern, l: string)
    requires p == ListBlock || p == ListRun
    requires PlainLine(l)
    ensures ReplaceAll(p, UlTemplate, l) == l
  {
    PlainLineSkipped(p, l, "");
    assert l + "" == l;
    ReplaceSkip(p, UlTemplate, l, "");
  }

  /** A plain line and its newline are copied, and the scan goes on with the next line. */
  lemma WrapPlainStep(p: Pattern, l: string, rest: string)
    requires p == ListBlock || p == ListRun
    requires PlainLine(l)
    ensures ReplaceAll(p, UlTemplate, l + "\n" + rest) == l + "\n" + ReplaceAll(p, UlTemplate, rest)
  {
    var a := l + "\n";
    assert forall i :: 0 <= i < |a| ==> Find(p, (a + rest)[i..]).None? by {
      PlainLineSkipped(p, l, "\n" + rest);
      assert a + rest == l + ("\n" + rest);
    }
    ReplaceSkip(p, UlTemplate, a, rest);
  }

  /** A run of item lines becomes one `<ul>`, and the scan goes on after it. */
  lemma WrapRunStep(run: seq<string>, tail: string)
    requires |run| >= 1 && forall k :: 0 <= k < |run| ==> ItemLine(run[k])
    requires tail == [] || (tail[0] == '\n' && LiItem(tail[1..]) == 0)
    ensures ReplaceAll(ListBlock, UlTemplate, Join(run, "\n") + tail)
            == UlOpen + Join(run, "\n") + UlClose + ReplaceAll(ListBlock, UlTemplate, tail)
  {
    var j := Join(run, "\n");
    FindRun(run, tail);
    ReplaceAtStart(ListBlock, UlTemplate, j + tail, Hit(|j|, [j, j]));
    ExpandUl(j);
    assert (j + tail)[|j|..] == tail;
  }

  /** A text that starts with a plain line has no item at its start. */
  lemma PlainFirst(rest: seq<string>)
    requires |rest| >= 1 && PlainLine(rest[0])
    ensures !StartsWith(Join(rest, "\n"), "<li")
  {
    if |rest| == 1 {
      NotLiAt(rest[0], "", 0);
      assert rest[0] + "" == rest[0];
    } else {
      assert Join(rest, "\n") == rest[0] + ("\n" + Join(rest[1..], "\n"));
      NotLiAt(rest[0], "\n" + Join(rest[1..], "\n"), 0);
    }
  }

  /** A newline is copied by either list expression. */
  lemma NewlineSkipped(p: Pattern, t: string)
    requires p == ListBlock || p == ListRun
    ensures ReplaceAll(p, UlTemplate, "\n" + t) == "\n" + ReplaceAll(p, UlTemplate, t)
  {
    var s := "\n" + t;
    assert s[0..] == s;
    DiffersAt(s, "<li", 0);
    assert LiItem(s) == 0 && LiRun(s) == 0;
    assert Find(p, s[0..]).None?;
    ReplaceSkip(p, UlTemplate, "\n", t);
  }

  /**
   * The corrected list expression wraps each maximal run of item lines in one
   * `<ul>`, and keeps every other line and every line break between blocks.
   */
  lemma {:induction false} WrapRuns(lines: seq<string>)
    requires |lines| >= 1 && ListReady(lines)
    ensures ReplaceAll(ListBlock, UlTemplate, Join(lines, "\n")) == Join(GroupRuns(lines), "\n")
    decreases |lines|
  {
    var k := RunLength(lines);
    if k == 0 {
      if |lines| == 1 {
        WrapPlainLast(ListBlock, lines[0]);
      } else {
        WrapRuns(lines[1..]);
        WrapPlainThen(lines);
      }
    } else if k == |lines| {
      WrapRunLast(lines);
    } else {
      WrapRuns(lines[k..]);
      WrapRunThen(lines, k);
    }
  }

  /** The step of `WrapRuns` for a plain first line. */
  lemma WrapPlainThen(lines: seq<string>)
    requires |lines| >= 2 && RunLength(lines) == 0 && ListReady(lines)
    requires ReplaceAll(ListBlock, UlTemplate, Join(lines[1..], "\n")) == Join(GroupRuns(lines[1..]), "\n")
    ensures ReplaceAll(ListBlock, UlTemplate, Join(lines, "\n")) == Join(GroupRuns(lines), "\n")
  {
    var l := lines[0];
    assert Join(lines, "\n") == l + "\n" + Join(lines[1..], "\n");
    WrapPlainStep(ListBlock, l, Join(lines[1..], "\n"));
    assert GroupRuns(lines) == [l] + GroupRuns(lines[1..]);
    JoinJoin(l, GroupRuns(lines[1..]), "\n");
  }

  /** The step of `WrapRuns` for a text that is one run of items. */
  lemma WrapRunLast(lines: seq<string>)
    requires |lines| >= 1 && RunLength(lines) == |lines|
    ensures ReplaceAll(ListBlock, UlTemplate, Join(lines, "\n")) == Join(GroupRuns(lines), "\n")
  {
    var j := Join(lines, "\n");
    assert lines[..|lines|] == lines;
    assert lines[|lines|..] == [];
    WrapRunStep(lines, "");
    assert j + "" == j;
    assert GroupRuns(lines) == [UlOpen + j + UlClose];
  }

  /** The step of `WrapRuns` for a run of items followed by a plain line. */
  lemma WrapRunThen(lines: seq<string>, k: nat)
    requires 1 <= k < |lines| && k == RunLength(lines) && ListReady(lines)
    requires ReplaceAll(ListBlock, UlTemplate, Join(lines[k..], "\n")) == Join(GroupRuns(lines[k..]), "\n")
    ensures ReplaceAll(ListBlock, UlTemplate, Join(lines, "\n")) == Join(GroupRuns(lines), "\n")
  {
    JoinAt(lines, k, "\n");
    ReplaceAtRun(lines, k);
    GroupsAtRun(lines, k);
  }

  lemma ReplaceAtRun(lines: seq<string>, k: nat)
    requires 1 <= k < |lines| && k == RunLength(lines) && ListReady(lines)
    ensures var j, r := Join(lines[..k], "\n"), Join(lines[k..], "\n");
      ReplaceAll(ListBlock, UlTemplate, j + ("\n" + r))
      == UlOpen + j + UlClose + "\n" + ReplaceAll(ListBlock, UlTemplate, r)
  {
    var run, rest := lines[..k], lines[k..];
    assert LiItem(Join(rest, "\n")) == 0 by {
      assert rest[0] == lines[k];
      PlainFirst(rest);
    }
    assert forall i :: 0 <= i < |run| ==> ItemLine(run[i]);
    WrapRunThenLine(run, Join(rest, "\n"));
  }

  /** With the corrected expression, a run followed by another line becomes one `<ul>` and the newline stays outside it. */
  lemma WrapRunThenLine(run: seq<string>, r: string)
    requires |run| >= 1 && forall k :: 0 <= k < |run| ==> ItemLine(run[k])
    requires LiItem(r) == 0
    ensures var j := Join(run, "\n");
      ReplaceAll(ListBlock, UlTemplate, j + ("\n" + r))
      == UlOpen + j + UlClose + "\n" + ReplaceAll(ListBlock, UlTemplate, r)
  {
    var j := Join(run, "\n");
    var x := ReplaceAll(ListBlock, UlTemplate, r);
    assert ReplaceAll(ListBlock, UlTemplate, j + ("\n" + r)) == UlOpen + j + UlClose + ReplaceAll(ListBlock, UlTemplate, "\n" + r) by {
      assert ("\n" + r)[1..] == r;
      WrapRunStep(run, "\n" + r);
    }
    assert ReplaceAll(ListBlock, UlTemplate, "\n" + r) == "\n" + x by {
      NewlineSkipped(ListBlock, r);
    }
    Associative(UlOpen + j + UlClose, "\n", x);
  }

  lemma Associative(a: string, b: string, c: string)
    ensures a + (b + c) == a + b + c
  {
  }

  lemma Regroup4(a: string, b: string, c: string, d: string)
    ensures a + b + c + d == a + (b + c + d)
  {
  }

  lemma AfterPrefix(a: string, b: string)
    ensures (a + b)[|a|..] == b
  {
  }

  lemma GroupsAtRun(lines: seq<string>, k: nat)
    requires 1 <= k < |lines| && k == RunLength(lines)
    ensures Join(GroupRuns(lines), "\n")
            == UlOpen + Join(lines[..k], "\n") + UlClose + "\n" + Join(GroupRuns(lines[k..]), "\n")
  {
    var u := UlOpen + Join(lines[..k], "\n") + UlClose;
    assert GroupRuns(lines) == [u] + GroupRuns(lines[k..]);
    JoinJoin(u, GroupRuns(lines[k..]), "\n");
  }

  // ---------------------------------------------------------------------------
  // List wrapping as written

  /**
   * What the list expression as written makes of a text of lines: each
   * maximal run of item lines in one `<ul>`, where a run followed by another
   * line also takes the newline after it, so that the newline ends up inside
   * the `<ul>` and the next line follows the `</ul>` directly.
   */
  function ListedAsWritten(lines: seq<string>): string
    decreases |lines|
  {
    if lines == [] then ""
    else
      var k := RunLength(lines);
      if k == 0 then
        if |lines| == 1 then lines[0] else lines[0] + "\n" + ListedAsWritten(lines[1..])
      else if k == |lines| then UlOpen + Join(lines, "\n") + UlClose
      else UlOpen + Join(lines[..k], "\n") + "\n" + UlClose + ListedAsWritten(lines[k..])
  }

  /**
   * `(<li.*<\/li>\n?)+` over a run of item lines takes the whole run and, when
   * another line follows, the newline before it.
   */
  lemma {:induction false} LiRunJoin(run: seq<string>, tail: string)
    requires |run| >= 1 && forall k :: 0 <= k < |run| ==> ItemLine(run[k])
    requires tail == [] || (tail[0] == '\n' && LiItem(tail[1..]) == 0)
    ensures LiRun(Join(run, "\n") + tail) == |Join(run, "\n")| + (if tail == [] then 0 else 1)
    decreases |run|
  {
    if |run| == 1 {
      assert Join(run, "\n") == run[0];
      LiRunLast(run[0], tail);
    } else {
      var j1 := Join(run[1..], "\n");
      JoinFirst(run, tail);
      LiRunStep(run[0], j1 + tail);
      assert forall k :: 0 <= k < |run[1..]| ==> ItemLine(run[1..][k]);
      LiRunJoin(run[1..], tail);
    }
  }

  /** A run joined with newlines is its first line, a newline and the rest joined. */
  lemma JoinFirst(run: seq<string>, tail: string)
    requires |run| >= 2
    ensures var j1 := Join(run[1..], "\n");
      Join(run, "\n") + tail == run[0] + ("\n" + (j1 + tail))
      && |Join(run, "\n")| == |run[0]| + 1 + |j1|
  {
    var j1 := Join(run[1..], "\n");
    assert Join(run, "\n") == run[0] + "\n" + j1 by {
      JoinJoin(run[0], run[1..], "\n");
      assert [run[0]] + run[1..] == run;
    }
    Regroup4(run[0], "\n", j1, tail);
  }

  /** The last item of a run, and the newline after it when another line follows. */
  lemma LiRunLast(l: string, tail: string)
    requires ItemLine(l)
    requires tail == [] || (tail[0] == '\n' && LiItem(tail[1..]) == 0)
    ensures LiRun(l + tail) == |l| + (if tail == [] then 0 else 1)
  {
    if tail == [] {
      assert l + tail == l;
      LiRunAlone(l);
    } else {
      LiRunThenLine(l, tail);
    }
  }

  /** A last item with nothing after it is the whole match. */
  lemma LiRunAlone(l: string)
    requires ItemLine(l)
    ensures LiRun(l) == |l|
  {
    LiItemLine(l, "");
    assert l + "" == l;
    assert LiUnit(l) == |l|;
    LiRunUnfold(l);
    assert l[|l|..] == [];
  }

  /** A last item followed by a line that is no item: the match takes the newline and stops. */
  lemma LiRunThenLine(l: string, tail: string)
    requires ItemLine(l)
    requires |tail| >= 1 && tail[0] == '\n' && LiItem(tail[1..]) == 0
    ensures LiRun(l + tail) == |l| + 1
  {
    var s := l + tail;
    LiItemLine(l, tail);
    assert s[|l|] == '\n';
    LiUnitNewline(s);
    LiRunUnfold(s);
    assert s[|l| + 1..] == tail[1..];
    assert LiUnit(tail[1..]) == 0;
  }

  /** An item and its newline are one unit of `(<li.*<\/li>\n?)+`. */
  lemma LiRunStep(l: string, more: string)
    requires ItemLine(l)
    ensures LiRun(l + ("\n" + more)) == |l| + 1 + LiRun(more)
  {
    var s := l + ("\n" + more);
    LiItemLine(l, "\n" + more);
    assert s[|l|] == '\n';
    LiUnitNewline(s);
    LiRunUnfold(s);
    assert s[|l| + 1..] == more;
  }

  /** An item followed by a newline is a unit that takes the newline. */
  lemma LiUnitNewline(s: string)
    requires LiItem(s) > 0 && LiItem(s) < |s| && s[LiItem(s)] == '\n'
    ensures LiUnit(s) == LiItem(s) + 1
  {
  }

  /** One step of `LiRun` on a text that starts with a unit. */
  lemma LiRunUnfold(s: string)
    requires LiUnit(s) > 0
    ensures LiRun(s) == LiUnit(s) + LiRun(s[LiUnit(s)..])
  {
  }

  /** The list expression as written matches a run and, when another line follows, its newline. */
  lemma FindRunAsWritten(run: seq<string>, tail: string)
    requires |run| >= 1 && forall k :: 0 <= k < |run| ==> ItemLine(run[k])
    requires tail == [] || (tail[0] == '\n' && LiItem(tail[1..]) == 0)
    ensures var s, n := Join(run, "\n") + tail, |Join(run, "\n")| + (if tail == [] then 0 else 1);
      Find(ListRun, s) == Some(Hit(n, [s[..n], s[..n]]))
  {
    LiRunJoin(run, tail);
  }

  /** A run at the end of the text becomes one `<ul>`. */
  lemma WrapRunEnd(run: seq<string>)
    requires |run| >= 1 && forall k :: 0 <= k < |run| ==> ItemLine(run[k])
    ensures ReplaceAll(ListRun, UlTemplate, Join(run, "\n")) == UlOpen + Join(run, "\n") + UlClose
  {
    var j := Join(run, "\n");
    FindRunAsWritten(run, "");
    assert j + "" == j;
    assert j[..|j|] == j;
    ReplaceAtStart(ListRun, UlTemplate, j, Hit(|j|, [j, j]));
    ExpandUl(j);
    assert j[|j|..] == [];
  }

  /** A run followed by another line becomes one `<ul>` holding the newline between them. */
  lemma WrapRunNewline(run: seq<string>, r: string)
    requires |run| >= 1 && forall k :: 0 <= k < |run| ==> ItemLine(run[k])
    requires LiItem(r) == 0
    ensures ReplaceAll(ListRun, UlTemplate, Join(run, "\n") + ("\n" + r))
            == UlOpen + Join(run, "\n") + "\n" + UlClose + ReplaceAll(ListRun, UlTemplate, r)
  {
    FindRunThenLine(run, r);
    ReplaceRunNewline(Join(run, "\n"), r);
  }

  lemma ReplaceRunNewline(j: string, r: string)
    requires Find(ListRun, j + ("\n" + r)) == Some(Hit(|j| + 1, [j + "\n", j + "\n"]))
    ensures ReplaceAll(ListRun, UlTemplate, j + ("\n" + r))
            == UlOpen + j + "\n" + UlClose + ReplaceAll(ListRun, UlTemplate, r)
  {
    var g := j + "\n";
    AfterNewline(j, r);
    ReplaceAtStart(ListRun, UlTemplate, j + ("\n" + r), Hit(|g|, [g, g]));
    ExpandUl(g);
    Associative(UlOpen, j, "\n");
  }

  /** What follows a text and one newline. */
  lemma AfterNewline(j: string, r: string)
    ensures (j + ("\n" + r))[|j| + 1..] == r
  {
  }

  lemma FindRunThenLine(run: seq<string>, r: string)
    requires |run| >= 1 && forall k :: 0 <= k < |run| ==> ItemLine(run[k])
    requires LiItem(r) == 0
    ensures var j := Join(run, "\n");
      Find(ListRun, j + ("\n" + r)) == Some(Hit(|j| + 1, [j + "\n", j + "\n"]))
  {
    var j := Join(run, "\n");
    var t := "\n" + r;
    var s := j + t;
    assert t[0] == '\n' && t[1..] == r;
    LiRunJoin(run, t);
    assert LiRun(s) == |j| + 1;
    assert s[..|j| + 1] == j + "\n";
  }

  /**
   * The list expression as written, over lines of the two kinds, yields the
   * `ListedAsWritten` text: every run is wrapped, and a run that another line
   * follows keeps that line's newline inside its `<ul>`.
   */
  lemma {:induction false} WrapRunsAsWritten(lines: seq<string>)
    requires |lines| >= 1 && ListReady(lines)
    ensures ReplaceAll(ListRun, UlTemplate, Join(lines, "\n")) == ListedAsWritten(lines)
    decreases |lines|
  {
    var k := RunLength(lines);
    if k == 0 {
      if |lines| == 1 {
        WrapPlainLast(ListRun, lines[0]);
      } else {
        assert Join(lines, "\n") == lines[0] + "\n" + Join(lines[1..], "\n");
        WrapPlainStep(ListRun, lines[0], Join(lines[1..], "\n"));
        WrapRunsAsWritten(lines[1..]);
      }
    } else if k == |lines| {
      WrapRunEnd(lines);
    } else {
      var run, rest := lines[..k], lines[k..];
      JoinAt(lines, k, "\n");
      assert LiItem(Join(rest, "\n")) == 0 by {
        assert rest[0] == lines[k];
        PlainFirst(rest);
      }
      assert forall i :: 0 <= i < |run| ==> ItemLine(run[i]);
      WrapRunNewline(run, Join(rest, "\n"));
      WrapRunsAsWritten(rest);
    }
  }

  // ---------------------------------------------------------------------------
  // Inline elements

  const StrongOpen: string := Tag("strong", "text-white font-bold")
  const StrongClose: string := "</strong>"
  const EmOpen: string := Tag("em", "text-white/90")
  const EmClose: string := "</em>"
  const CodeOpen: string :=
    Tag("code", "bg-black/30" + " text-emerald-300" + " px-1.5 py-0.5" + " rounded text-sm" + " font-mono border" + " border-white/10")
  const CodeClose: string := "</code>"
  /** What the link template puts between the address and the text. */
  const LinkAttributes: string :=
    "\" target=\"_blank\"" + " rel=\"noopener" + " noreferrer\"" + " class=\"text-" + "emerald-400"
    + " hover:underline" + " hover:text-" + "emerald-300" + " transition-colors" + "\">"

  const BoldTemplate: seq<Piece> := [Lit(StrongOpen), Group(1), Lit(StrongClose)]
  const ItalicTemplate: seq<Piece> := [Lit(EmOpen), Group(1), Lit(EmClose)]
  const CodeTemplate: seq<Piece> := [Lit(CodeOpen), Group(1), Lit(CodeClose)]
  /** `'<a href="$2" ...>$1</a>'` */
  const LinkTemplate: seq<Piece> := [Lit("<a href=\""), Group(2), Lit(LinkAttributes), Group(1), Lit("</a>")]

  /** Bold, italic, inline code and links, in source order. */
  function InlineStage(s: string): string
  {
    ReplaceAll(Link, LinkTemplate, ReplaceAll(CodeSpan, CodeTemplate, ReplaceAll(Italic, ItalicTemplate, ReplaceAll(Bold, BoldTemplate, s))))
  }

  /** No character an inline element starts with. */
  predicate NoInlineMarks(s: string)
  {
    forall i :: 0 <= i < |s| ==> s[i] != '*' && s[i] != '`' && s[i] != '['
  }

  /** Text without `*`, a backtick or `[` comes through the inline rules unchanged. */
  lemma InlineUntouched(s: string)
    requires NoInlineMarks(s)
    ensures InlineStage(s) == s
  {
    ReplaceWithoutTrigger(Bold, BoldTemplate, s);
    ReplaceWithoutTrigger(Italic, ItalicTemplate, s);
    ReplaceWithoutTrigger(CodeSpan, CodeTemplate, s);
    ReplaceWithoutTrigger(Link, LinkTemplate, s);
  }

  lemma NoInlineMarksAppend(a: string, b: string)
    requires NoInlineMarks(a) && NoInlineMarks(b)
    ensures NoInlineMarks(a + b)
  {
    forall i | 0 <= i < |a + b| ensures (a + b)[i] != '*' && (a + b)[i] != '`' && (a + b)[i] != '[' {
      if i < |a| {
        assert (a + b)[i] == a[i];
      } else {
        assert (a + b)[i] == b[i - |a|];
      }
    }
  }

  // ---------------------------------------------------------------------------
  // Paragraphs

  const POpen: string := Tag("p", "text-white/80" + " leading-relaxed my-2")
  const PClose: string := "</p>"

  /** `trimmed.replace(/\n/g, "<br/>")` */
  function BreakLines(s: string): string
  {
    ReplaceAll(Newline, [Lit("<br/>")], s)
  }

  /** A block emitted as it is: a header, a list or a quote. */
  predicate Structural(t: string)
  {
    StartsWith(t, "<h") || StartsWith(t, "<ul") || StartsWith(t, "<blockquote")
  }

  /** What one `\n\n`-separated block becomes. */
  function RenderBlock(block: string): (r: string)
    ensures Trim(block) == [] ==> r == []
    ensures Trim(block) != [] && Structural(Trim(block)) ==> r == Trim(block)
    ensures Trim(block) != [] && !Structural(Trim(block)) ==>
              r == POpen + Join(Split(Trim(block), "\n"), "<br/>") + PClose
  {
    var t := Trim(block);
    if t == [] then ""
    else if Structural(t) then t
    else
      BreakLinesSplit(t);
      POpen + BreakLines(t) + PClose
  }

  /** The rendered blocks, joined with nothing between them. */
  function RenderBlocks(blocks: seq<string>): string
  {
    if blocks == [] then "" else RenderBlock(blocks[0]) + RenderBlocks(blocks[1..])
  }

  /** `clean.split("\n\n").map(...).join("")` */
  function Paragraphs(s: string): string
  {
    RenderBlocks(Split(s, "\n\n"))
  }

  /** A string with no newline character in it. */
  predicate NoNewline(s: string)
  {
    forall i :: 0 <= i < |s| ==> s[i] != '\n'
  }

  lemma FreeNoNewline(s: string)
    requires Free(s, "\n")
    ensures NoNewline(s)
  {
    forall i | 0 <= i < |s| ensures s[i] != '\n' {
      assert !Occurs(s, "\n", i);
      assert s[i..i + 1] == [s[i]];
    }
  }

  /** Replacing each newline by `<br/>` is splitting at the newlines and joining with `<br/>`. */
  lemma BreakLinesSplit(s: string)
    ensures BreakLines(s) == Join(Split(s, "\n"), "<br/>")
  {
    var parts := Split(s, "\n");
    forall k | 0 <= k < |parts| ensures NoNewline(parts[k]) {
      FreeNoNewline(parts[k]);
    }
    JoinSplit(s, "\n");
    BreakLinesJoin(parts);
  }

  lemma {:induction false} BreakLinesJoin(parts: seq<string>)
    requires |parts| >= 1 && forall k :: 0 <= k < |parts| ==> NoNewline(parts[k])
    ensures BreakLines(Join(parts, "\n")) == Join(parts, "<br/>")
  {
    var p := parts[0];
    if |parts| == 1 {
      forall i | 0 <= i < |p| ensures !Trigger(Newline, p[i]) {
      }
      ReplaceWithoutTrigger(Newline, [Lit("<br/>")], p);
    } else {
      var rest := Join(parts[1..], "\n");
      assert Join(parts, "\n") == p + ("\n" + rest);
      BreakLinesStep(p, rest);
      BreakLinesJoin(parts[1..]);
      assert Join(parts, "<br/>") == p + "<br/>" + Join(parts[1..], "<br/>");
    }
  }

  /** A line without a newline is copied, and the newline after it becomes `<br/>`. */
  lemma BreakLinesStep(p: string, rest: string)
    requires NoNewline(p)
    ensures BreakLines(p + ("\n" + rest)) == p + ("<br/>" + BreakLines(rest))
  {
    forall i | 0 <= i < |p| ensures Find(Newline, (p + ("\n" + rest))[i..]).None? {
      assert (p + ("\n" + rest))[i..][0] == p[i];
    }
    ReplaceSkip(Newline, [Lit("<br/>")], p, "\n" + rest);
    assert ("\n" + rest)[..1] == "\n";
    ReplaceAtStart(Newline, [Lit("<br/>")], "\n" + rest, Hit(1, ["\n"]));
    assert ("\n" + rest)[1..] == rest;
  }

  lemma NoNewlineAppend(a: string, b: string)
    requires NoNewline(a) && NoNewline(b)
    ensures NoNewline(a + b)
  {
    forall i | 0 <= i < |a + b| ensures (a + b)[i] != '\n' {
      if i < |a| {
        assert (a + b)[i] == a[i];
      } else {
        assert (a + b)[i] == b[i - |a|];
      }
    }
  }

  lemma {:induction false} NoNewlineJoin(parts: seq<string>, sep: string)
    requires NoNewline(sep) && forall k :: 0 <= k < |parts| ==> NoNewline(parts[k])
    ensures NoNewline(Join(parts, sep))
  {
    if |parts| >= 2 {
      NoNewlineJoin(parts[1..], sep);
      NoNewlineAppend(parts[0], sep);
      NoNewlineAppend(parts[0] + sep, Join(parts[1..], sep));
    }
  }

  lemma NoNewlineFree(s: string)
    requires NoNewline(s)
    ensures Free(s, "\n\n")
  {
    forall i | 0 <= i <= |s| ensures !Occurs(s, "\n\n", i) {
      if i + 2 <= |s| {
        assert s[i..i + 2][0] == s[i];
      }
    }
  }

  lemma POpenMarkup()
    ensures Markup(POpen)
  {
    assert Markup("p");
    assert Markup("text-white/80");
    assert Markup(" leading-relaxed my-2");
    MarkupAppend("text-white/80", " leading-relaxed my-2");
    TagMarkup("p", "text-white/80" + " leading-relaxed my-2");
  }

  /** Neither end of the text is a newline. */
  predicate Edges(r: string)
  {
    r == [] || (r[0] != '\n' && r[|r| - 1] != '\n')
  }

  /** A paragraph holds no newline at all. */
  lemma ParagraphNoNewline(t: string)
    ensures NoNewline(POpen + Join(Split(t, "\n"), "<br/>") + PClose)
  {
    var parts := Split(t, "\n");
    forall k | 0 <= k < |parts| ensures NoNewline(parts[k]) {
      FreeNoNewline(parts[k]);
    }
    NoNewlineJoin(parts, "<br/>");
    POpenMarkup();
    NoNewlineAppend(POpen, Join(parts, "<br/>"));
    NoNewlineAppend(POpen + Join(parts, "<br/>"), PClose);
  }

  /** A rendered block has no blank line in it and no newline at either end. */
  lemma RenderBlockShape(block: string)
    requires Free(block, "\n\n")
    ensures Free(RenderBlock(block), "\n\n") && Edges(RenderBlock(block))
  {
    var t := Trim(block);
    if t != [] {
      if Structural(t) {
        FreeTrim(block, "\n\n");
      } else {
        var r := RenderBlock(block);
        ParagraphNoNewline(t);
        NoNewlineFree(r);
      }
    }
  }

  /** Two texts without a blank line, neither of which ends in a newline at the seam, concatenate to one without. */
  lemma FreeConcat(a: string, b: string)
    requires Free(a, "\n\n") && Free(b, "\n\n") && Edges(a) && Edges(b)
    ensures Free(a + b, "\n\n") && Edges(a + b)
  {
    var s := a + b;
    forall i | 0 <= i <= |s| ensures !Occurs(s, "\n\n", i) {
      if i + 2 <= |s| {
        if i + 2 <= |a| {
          assert s[i..i + 2] == a[i..i + 2];
          assert !Occurs(a, "\n\n", i);
        } else if i >= |a| {
          assert s[i..i + 2] == b[i - |a|..i - |a| + 2];
          assert !Occurs(b, "\n\n", i - |a|);
        } else {
          assert s[i..i + 2][0] == a[|a| - 1];
        }
      }
    }
    if a == [] {
      assert s == b;
    } else if b == [] {
      assert s == a;
    }
  }

  lemma {:induction false} RenderBlocksShape(blocks: seq<string>)
    requires forall k :: 0 <= k < |blocks| ==> Free(blocks[k], "\n\n")
    ensures Free(RenderBlocks(blocks), "\n\n") && Edges(RenderBlocks(blocks))
  {
    if blocks != [] {
      RenderBlockShape(blocks[0]);
      RenderBlocksShape(blocks[1..]);
      FreeConcat(RenderBlock(blocks[0]), RenderBlocks(blocks[1..]));
    }
  }

  /** The paragraph pass never leaves a blank line in the page. */
  lemma ParagraphsNoBlankLine(s: string)
    ensures Free(Paragraphs(s), "\n\n")
  {
    RenderBlocksShape(Split(s, "\n\n"));
  }

  // ---------------------------------------------------------------------------
  // The whole renderer

  /**
   * `renderMarkdownToHtml` with the list expression `list`: escaping, line
   * endings, line rules, lists, inline elements, paragraphs.
   */
  function RenderWith(list: Pattern, md: string): (r: string)
    ensures md == [] ==> r == []
    ensures Free(r, "\n\n")
  {
    if md == [] then ""
    else
      var clean := NormalizeNewlines(EscapeHtml(md));
      var lined := LineStage(clean);
      var listed := ReplaceAll(list, UlTemplate, lined);
      var inline := InlineStage(listed);
      ParagraphsNoBlankLine(inline);
      Paragraphs(inline)
  }

  /**
   * Both renderers line by line, for a text whose escaped and normalised
   * form has the lines `lines`: the line rules rewrite every line on its own,
   * the list expression as written yields `ListedAsWritten` of the rendered
   * lines and the corrected one their `GroupRuns`; the inline rules and the
   * paragraphs follow.
   */
  lemma RenderByLines(md: string, lines: seq<string>)
    requires md != [] && |lines| >= 1
    requires Join(lines, "\n") == NormalizeNewlines(EscapeHtml(md))
    requires AllNoBreaks(lines) && ListReady(RenderEach(lines))
    ensures RenderMarkdownToHtml(md) == Paragraphs(InlineStage(ListedAsWritten(RenderEach(lines))))
    ensures RenderMarkdownFixed(md) == Paragraphs(InlineStage(Join(GroupRuns(RenderEach(lines)), "\n")))
  {
    LineStageByLine(lines);
    WrapRuns(RenderEach(lines));
    WrapRunsAsWritten(RenderEach(lines));
  }

  /** `renderMarkdownToHtml` as written. */
  function RenderMarkdownToHtml(md: string): (r: string)
    ensures md == [] ==> r == []
    ensures Free(r, "\n\n")
  {
    RenderWith(ListRun, md)
  }

  /** The renderer with the list expression that leaves the newline after a list alone. */
  function RenderMarkdownFixed(md: string): (r: string)
    ensures md == [] ==> r == []
    ensures Free(r, "\n\n")
  {
    RenderWith(ListBlock, md)
  }
}
