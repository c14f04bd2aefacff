/**
 * The renderer on one small document, "- a", a blank line, then "b": the
 * list expression of lib/markdown.ts takes the newline after the list into
 * the `<ul>`, so only one newline is left between the list and the next
 * block, the paragraph split does not see the blank line, and "b" stays in
 * the list's block instead of becoming a paragraph.
 */
module RenderExamples {
  import opened Js
  import opened Text
  import opened Regex
  import opened Markdown

  /** The document: an item, a blank line, a paragraph. */
  const Doc: string := "- a\n\nb"

  /** The item line as the line rules write it. */
  const Li: string := LiOpen + "a" + LiClose

  lemma UlMarkup()
    ensures Markup(UlOpen) && Markup(UlClose)
  {
    assert Markup("my-3 space-y-1");
    assert Markup(" text-white/90");
    MarkupAppend("my-3 space-y-1", " text-white/90");
    assert Markup("ul");
    TagMarkup("ul", "my-3 space-y-1" + " text-white/90");
  }

  lemma LiShape()
    ensures Markup(Li) && ItemLine(Li)
  {
    LiMarkup();
    ClosesMarkup();
    assert Markup("a");
    MarkupAppend(LiOpen, "a");
    MarkupAppend(LiOpen + "a", LiClose);
    MarkupNoBreaks(Li);
    assert Li[..3] == LiOpen[..3] == "<li";
    assert Li[|Li| - 5..] == LiClose;
  }

  lemma UlStart(t: string)
    ensures (UlOpen + t)[..3] == "<ul" && (UlOpen + t)[0] == '<'
  {
    assert UlOpen[..3] == "<ul";
  }

  /** Three lines joined. */
  lemma Join3(a: string, b: string, c: string)
    ensures Join([a, b, c], "\n") == a + "\n" + b + "\n" + c
  {
    assert [a, b, c][1..] == [b, c];
    assert [b, c][1..] == [c];
    assert Join([b, c], "\n") == b + "\n" + c;
    assert Join([a, b, c], "\n") == a + "\n" + (b + "\n" + c);
  }

  /** The line-stage output of the document, joined. */
  lemma JoinDoc(x: string)
    ensures Join([x, "", "b"], "\n") == x + "\n\nb"
  {
    Join3(x, "", "b");
  }

  /** No character that escaping or line-ending normalisation rewrites. */
  predicate Unescaped(s: string)
  {
    forall i :: 0 <= i < |s| ==> s[i] !in "&<>\"'\r"
  }

  lemma UnescapedDoc()
    ensures Unescaped(Doc)
  {
  }

  lemma EscapeNoop(s: string)
    requires Unescaped(s)
    ensures NormalizeNewlines(EscapeHtml(s)) == s
  {
    assert EscapeHtml(s) == s;
    ReplaceWithoutTrigger(CrLf, [Lit("\n")], s);
  }

  lemma ItemLineRendered()
    ensures RenderLine("- a") == Li
  {
    DiffersAt("- a", "### ", 0);
    DiffersAt("- a", "## ", 0);
    DiffersAt("- a", "# ", 0);
    DiffersAt("- a", "&gt; ", 0);
    DiffersAt("- a", "> ", 0);
    assert "- a"[2..] == "a";
  }

  lemma RenderDocLines()
    ensures RenderEach(["- a", "", "b"]) == [Li, "", "b"]
  {
    ItemLineRendered();
    DiffersAt("b", "- ", 0);
  }

  lemma DocLines()
    ensures Join(["- a", "", "b"], "\n") == Doc && AllNoBreaks(["- a", "", "b"])
  {
    Join3("- a", "", "b");
  }

  /** Escaping, line endings and the line rules turn the document into an item line, an empty line and "b". */
  lemma LinedDoc(md: string)
    requires md == Doc
    ensures LineStage(NormalizeNewlines(EscapeHtml(md))) == Li + "\n\nb"
  {
    var lines := ["- a", "", "b"];
    UnescapedDoc();
    EscapeNoop(md);
    JoinDoc(Li);
    DocLines();
    LineStageByLine(lines);
    RenderDocLines();
  }

  /** A newline between two texts without a blank line, where neither side has a newline at the seam. */
  lemma SingleBreak(a: string, b: string)
    requires NoNewline(a) && Free(b, "\n\n") && (b == [] || b[0] != '\n')
    ensures Free(a + "\n" + b, "\n\n")
  {
    var s := a + "\n" + b;
    forall i | 0 <= i <= |s| ensures !Occurs(s, "\n\n", i) {
      if i + 2 <= |s| {
        if i < |a| {
          assert s[i..i + 2][0] == a[i];
        } else if i == |a| {
          assert s[i..i + 2][1] == b[0];
        } else {
          assert s[i..i + 2] == b[i - |a| - 1..i - |a| + 1];
          assert !Occurs(b, "\n\n", i - |a| - 1);
        }
      }
    }
  }

  /** A text without a blank line is one block. */
  lemma SplitWhole(s: string)
    requires Free(s, "\n\n")
    ensures Split(s, "\n\n") == [s]
  {
    assert IndexOf(s, "\n\n").None?;
  }

  /** Two newline-free texts around one blank line are two blocks. */
  lemma SplitTwo(a: string, b: string)
    requires NoNewline(a) && NoNewline(b)
    ensures Split(a + "\n\n" + b, "\n\n") == [a, b]
  {
    var s := a + "\n\n" + b;
    assert Occurs(s, "\n\n", |a|) by {
      assert s[|a|..|a| + 2] == "\n\n";
    }
    forall j | 0 <= j < |a| ensures !Occurs(s, "\n\n", j) {
      assert s[j..j + 2][0] == a[j];
    }
    assert IndexOf(s, "\n\n") == Some(|a|);
    assert s[|a| + 2..] == b;
    assert s[..|a|] == a;
    NoNewlineFree(b);
    SplitWhole(b);
  }

  // ---------------------------------------------------------------------------
  // As written

  lemma Regroup(o: string, l: string, c: string)
    ensures o + (l + "\n") + c + "\nb" == o + l + "\n" + c + "\nb"
  {
  }

  /** A newline does not start an item. */
  lemma NoRunAtNewline(t: string)
    requires t != [] && t[0] == '\n'
    ensures LiRun(t) == 0
  {
    DiffersAt(t, "<li", 0);
  }

  /** The source's list expression takes an item line and one newline after it. */
  lemma RunTakesNewline(l: string)
    requires ItemLine(l)
    ensures LiRun(l + "\n\nb") == |l| + 1
  {
    var s := l + "\n\nb";
    LiItemLine(l, "\n\nb");
    assert s[|l|] == '\n';
    assert LiUnit(s) == |l| + 1;
    assert s[|l| + 1..] == "\nb";
    NoRunAtNewline("\nb");
  }

  /** The list expression of the source puts the newline after the item inside the `<ul>`. */
  lemma ListRunTakesNewline(l: string)
    requires ItemLine(l)
    ensures ReplaceAll(ListRun, UlTemplate, l + "\n\nb") == UlOpen + l + "\n" + UlClose + "\nb"
  {
    var s := l + "\n\nb";
    RunTakesNewline(l);
    assert s[..|l| + 1] == l + "\n";
    assert Find(ListRun, s) == Some(Hit(|l| + 1, [l + "\n", l + "\n"]));
    ReplaceAtStart(ListRun, UlTemplate, s, Hit(|l| + 1, [l + "\n", l + "\n"]));
    ExpandUl(l + "\n");
    assert s[|l| + 1..] == "\nb";
    ReplaceWithoutTrigger(ListRun, UlTemplate, "\nb");
    Regroup(UlOpen, l, UlClose);
  }

  lemma MergedFree(l: string)
    requires Markup(l)
    ensures Free(UlOpen + l + "\n" + UlClose + "\nb", "\n\n")
  {
    UlMarkup();
    MarkupAppend(UlOpen, l);
    assert Free(UlClose + "\n" + "b", "\n\n") by {
      NoNewlineFree("b");
      SingleBreak(UlClose, "b");
    }
    SingleBreak(UlOpen + l, UlClose + "\n" + "b");
    assert UlOpen + l + "\n" + UlClose + "\nb" == (UlOpen + l) + "\n" + (UlClose + "\n" + "b") by {
      Split3(UlOpen + l, UlClose);
    }
  }

  lemma Split3(x: string, c: string)
    ensures x + "\n" + c + "\nb" == x + "\n" + (c + "\n" + "b")
  {
  }

  lemma MergedMarks(l: string)
    requires Markup(l)
    ensures NoInlineMarks(UlOpen + l + "\n" + UlClose + "\nb")
  {
    UlMarkup();
    MarkupAppend(UlOpen, l);
    NoInlineMarksAppend(UlOpen + l, "\n");
    NoInlineMarksAppend(UlOpen + l + "\n", UlClose);
    NoInlineMarksAppend(UlOpen + l + "\n" + UlClose, "\nb");
  }

  lemma Regroup4(o: string, l: string, c: string)
    ensures o + l + "\n" + c + "\nb" == o + (l + "\n" + c + "\nb")
  {
  }

  lemma MergedStructural(l: string)
    ensures var m := UlOpen + l + "\n" + UlClose + "\nb";
      Trim(m) == m && Structural(m)
  {
    var m := UlOpen + l + "\n" + UlClose + "\nb";
    UlStart(l + "\n" + UlClose + "\nb");
    Regroup4(UlOpen, l, UlClose);
    TrimNoop(m);
  }

  /** The list's block as the source builds it is emitted as it is, "b" included. */
  lemma MergedBlock(l: string)
    requires Markup(l)
    ensures var m := UlOpen + l + "\n" + UlClose + "\nb";
      Paragraphs(InlineStage(m)) == m
  {
    var m := UlOpen + l + "\n" + UlClose + "\nb";
    MergedMarks(l);
    InlineUntouched(m);
    MergedFree(l);
    SplitWhole(m);
    MergedStructural(l);
    assert RenderBlocks([m]) == RenderBlock(m) + RenderBlocks([]);
  }

  /**
   * The source's renderer leaves "b" inside the list's block: the output is
   * the `<ul>` with its trailing newline, then a newline and "b", with no
   * `<p>` around it.
   */
  lemma ListSwallowsParagraph(md: string)
    requires md == Doc
    ensures RenderMarkdownToHtml(md) == UlOpen + Li + "\n" + UlClose + "\nb"
  {
    var m := UlOpen + Li + "\n" + UlClose + "\nb";
    var lined := LineStage(NormalizeNewlines(EscapeHtml(md)));
    assert lined == Li + "\n\nb" by {
      LinedDoc(md);
    }
    var listed := ReplaceAll(ListRun, UlTemplate, lined);
    assert listed == m by {
      LiShape();
      ListRunTakesNewline(Li);
    }
    assert Paragraphs(InlineStage(listed)) == m by {
      LiShape();
      MergedBlock(Li);
    }
  }

  // ---------------------------------------------------------------------------
  // Corrected

  /** The corrected list expression wraps the item alone and keeps the blank line. */
  lemma ListBlockKeepsNewline(l: string)
    requires ItemLine(l)
    ensures ReplaceAll(ListBlock, UlTemplate, l + "\n\nb") == (UlOpen + l + UlClose) + "\n\nb"
  {
    var lines := [l, "", "b"];
    assert PlainLine("") && PlainLine("b");
    assert ListReady(lines);
    JoinDoc(l);
    WrapRuns(lines);
    assert RunLength(lines) == 1;
    assert lines[..1] == [l] && lines[1..] == ["", "b"];
    assert GroupRuns(["b"]) == ["b"];
    assert GroupRuns(["", "b"]) == ["", "b"];
    assert GroupRuns(lines) == [UlOpen + l + UlClose, "", "b"];
    JoinDoc(UlOpen + l + UlClose);
  }

  /** The wrapped list has no newline and no inline marker in it. */
  lemma ListBlockMarks(l: string)
    requires Markup(l)
    ensures var u := UlOpen + l + UlClose;
      NoNewline(u) && NoInlineMarks(u)
  {
    UlMarkup();
    MarkupAppend(UlOpen, l);
    MarkupAppend(UlOpen + l, UlClose);
  }

  /** The wrapped list is a block of its own, emitted as it is. */
  lemma ListBlockAlone(l: string)
    ensures var u := UlOpen + l + UlClose;
      RenderBlock(u) == u
  {
    var u := UlOpen + l + UlClose;
    UlStart(l + UlClose);
    assert u == UlOpen + (l + UlClose);
    TrimNoop(u);
  }

  /** "b" on its own is a paragraph. */
  lemma ParagraphB()
    ensures RenderBlock("b") == POpen + "b" + PClose
  {
    CharFree("b", '\n');
    PlainParagraph("b");
  }

  /** A single line with no white space at its ends and no block tag in front is a paragraph. */
  lemma PlainParagraph(b: string)
    requires b != [] && !IsWhiteSpace(b[0]) && !IsWhiteSpace(b[|b| - 1])
    requires Free(b, "\n") && !Structural(b)
    ensures RenderBlock(b) == POpen + b + PClose
  {
    TrimNoop(b);
    SplitJoin([b], "\n");
  }

  /** A list block and a second block, one blank line apart, are two blocks. */
  lemma TwoBlocks(u: string, b: string)
    requires NoNewline(u) && NoInlineMarks(u) && NoNewline(b) && NoInlineMarks(b)
    ensures Paragraphs(InlineStage(u + "\n\n" + b)) == RenderBlocks([u, b])
  {
    NoInlineMarksAppend(u, "\n\n");
    NoInlineMarksAppend(u + "\n\n", b);
    InlineUntouched(u + "\n\n" + b);
    SplitTwo(u, b);
  }

  lemma RenderTwo(u: string, b: string)
    ensures RenderBlocks([u, b]) == RenderBlock(u) + RenderBlock(b)
  {
    var x, y := RenderBlock(u), RenderBlock(b);
    assert RenderBlocks([u, b]) == x + RenderBlocks([b]) by {
      assert [u, b][1..] == [b];
    }
    assert RenderBlocks([b]) == y by {
      assert [b][1..] == [];
      assert y + "" == y;
    }
  }

  /** The corrected renderer makes the list one block and "b" a paragraph. */
  lemma FixedKeepsParagraph(md: string)
    requires md == Doc
    ensures RenderMarkdownFixed(md) == UlOpen + Li + UlClose + POpen + "b" + PClose
  {
    var u := UlOpen + Li + UlClose;
    var lined := LineStage(NormalizeNewlines(EscapeHtml(md)));
    assert lined == Li + "\n\nb" by {
      LinedDoc(md);
    }
    var listed := ReplaceAll(ListBlock, UlTemplate, lined);
    LiShape();
    assert listed == u + "\n\nb" by {
      ListBlockKeepsNewline(Li);
    }
    LiShape();
    FixedTail(Li);
  }

  /** After the corrected list expression: the list block, then "b" as a paragraph. */
  lemma FixedTail(l: string)
    requires Markup(l)
    ensures var u := UlOpen + l + UlClose;
      Paragraphs(InlineStage(u + "\n\nb")) == u + POpen + "b" + PClose
  {
    var u := UlOpen + l + UlClose;
    assert Paragraphs(InlineStage(u + "\n\nb")) == RenderBlocks([u, "b"]) by {
      ListBlockMarks(l);
      Seam(u);
      TwoBlocks(u, "b");
    }
    assert RenderBlocks([u, "b"]) == u + (POpen + "b" + PClose) by {
      RenderTwo(u, "b");
      ListBlockAlone(l);
      ParagraphB();
    }
    Regroup3(u, POpen, "b", PClose);
  }

  lemma Seam(u: string)
    ensures u + "\n\nb" == u + "\n\n" + "b"
  {
  }

  lemma Regroup3(u: string, x: string, y: string, z: string)
    ensures u + (x + y + z) == u + x + y + z
  {
  }
}
