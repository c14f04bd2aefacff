/**
 * The two text helpers of app/app/page.tsx that prepare a POI description
 * for a card: `stripMarkdown` reduces markdown to one line of plain words,
 * `clampText` cuts a text to a maximum length with an ellipsis.
 */
module CardText {
  import opened Text
  import opened Regex

  /** The ellipsis `clampText` appends. */
  const Ellipsis: char := '\U{2026}'

  /** `t.slice(0, end)`: a negative end counts from the end of the string. */
  function SliceTo(t: string, end: int): (r: string)
    ensures end >= 0 ==> r == t[..if end < |t| then end else |t|]
    ensures end < 0 ==> r == t[..if |t| + end > 0 then |t| + end else 0]
  {
    var e := if end < 0 then (if |t| + end > 0 then |t| + end else 0) else (if end < |t| then end else |t|);
    t[..e]
  }

  /** `clampText(s, max)` */
  function ClampText(s: string, max: int): (r: string)
    ensures |Trim(s)| <= max ==> r == Trim(s)
    ensures |Trim(s)| > max ==> r != [] && r[|r| - 1] == Ellipsis
  {
    var t := Trim(s);
    if |t| <= max then t
    else TrimEnd(SliceTo(t, max - 1)) + [Ellipsis]
  }

  /** A text that is cut keeps a prefix of the trimmed text, without trailing white space, and fits in `max`. */
  lemma ClampCut(s: string, max: int)
    requires |Trim(s)| > max >= 1
    ensures var r := ClampText(s, max);
      |r| <= max
      && r[..|r| - 1] == TrimEnd(Trim(s)[..max - 1])
      && StartsWith(Trim(s), r[..|r| - 1])
      && (|r| >= 2 ==> !IsWhiteSpace(r[|r| - 2]))
  {
    var t := Trim(s);
    var p := TrimEnd(t[..max - 1]);
    var r := ClampText(s, max);
    assert r == p + [Ellipsis];
    assert r[..|r| - 1] == p;
    assert p == t[..|p|];
  }

  lemma EllipsisNotWhite()
    ensures !IsWhiteSpace(Ellipsis)
  {
  }

  /** `max <= 0` is where the cut text is longer than `max`: with the default of 100 it fits. */
  lemma ClampNonPositive(s: string, max: int)
    requires max <= 0 && Trim(s) != []
    ensures |ClampText(s, max)| > max
  {
  }

  /** Clamping a clamped text changes nothing. */
  lemma ClampIdempotent(s: string, max: int)
    requires max >= 1
    ensures ClampText(ClampText(s, max), max) == ClampText(s, max)
  {
    var t := Trim(s);
    var r := ClampText(s, max);
    if |t| <= max {
      TrimNoop(t);
    } else {
      ClampCut(s, max);
      var p := TrimEnd(t[..max - 1]);
      assert r == p + [Ellipsis];
      EllipsisNotWhite();
      if p != [] {
        assert p == t[..|p|];
        assert r[0] == t[0];
      }
      TrimNoop(r);
    }
  }

  // ---------------------------------------------------------------------------
  // stripMarkdown

  /** The characters `[*_~>#-]` replaces by a space. */
  predicate Marker(c: char)
  {
    c in "*_~>#-"
  }

  predicate NoMarks(s: string)
  {
    forall i :: 0 <= i < |s| ==> !Marker(s[i])
  }

  /** No white space other than single spaces between words. */
  predicate SingleSpaced(s: string)
  {
    && (forall i :: 0 <= i < |s| && IsWhiteSpace(s[i]) ==> s[i] == ' ')
    && (forall i :: 0 <= i < |s| - 1 ==> !(IsWhiteSpace(s[i]) && IsWhiteSpace(s[i + 1])))
  }

  /** `md.replace(image, "").replace(link, "$1").replace(fence, " ").replace(code, "$1")` */
  function DropMarkup(md: string): string
  {
    var noImages := ReplaceAll(Image, [], md);
    var noLinks := ReplaceAll(Link, [Group(1)], noImages);
    var noFences := ReplaceAll(Fence, [Lit(" ")], noLinks);
    ReplaceAll(CodeSpan, [Group(1)], noFences)
  }

  /** `.replace(/[*_~>#-]/g, " ")` */
  function BlankMarks(s: string): (r: string)
  {
    ReplaceAll(MarkChar, [Lit(" ")], s)
  }

  /** `.replace(/\s+/g, " ")` */
  function SquashSpaces(s: string): (r: string)
  {
    ReplaceAll(Spaces, [Lit(" ")], s)
  }

  /** `stripMarkdown(md)` */
  function StripMarkdown(md: string): (r: string)
    ensures NoMarks(r) && SingleSpaced(r)
    ensures r != [] ==> !IsWhiteSpace(r[0]) && !IsWhiteSpace(r[|r| - 1])
  {
    var s := SquashSpaces(BlankMarks(DropMarkup(md)));
    BlankMarksNoMarks(DropMarkup(md));
    SquashShape(BlankMarks(DropMarkup(md)));
    TrimShape(s);
    Trim(s)
  }

  /** Every marker character is blanked. */
  lemma {:induction false} BlankMarksNoMarks(s: string)
    ensures NoMarks(BlankMarks(s)) && |BlankMarks(s)| == |s|
    decreases |s|
  {
    if s != [] {
      BlankMarksNoMarks(s[1..]);
      assert Find(MarkChar, s).Some? ==> Find(MarkChar, s).value.len == 1;
    }
  }

  /** Squashing white space keeps the text free of markers, leaves single spaces, and starts with white space exactly when the input does. */
  lemma {:induction false} SquashShape(s: string)
    requires NoMarks(s)
    ensures var r := SquashSpaces(s);
      NoMarks(r) && SingleSpaced(r)
      && (r == [] <==> s == [])
      && (r != [] ==> (IsWhiteSpace(r[0]) <==> IsWhiteSpace(s[0])))
    decreases |s|
  {
    if s != [] {
      var r := SquashSpaces(s);
      var k := WhiteRun(s);
      if k == 0 {
        var rest := SquashSpaces(s[1..]);
        assert NoMarks(s[1..]) by {
          forall i | 0 <= i < |s[1..]| ensures !Marker(s[1..][i]) {
            assert s[1..][i] == s[i + 1];
          }
        }
        SquashShape(s[1..]);
        assert r == [s[0]] + rest;
        assert !IsWhiteSpace(s[0]);
      } else {
        var rest := SquashSpaces(s[k..]);
        assert NoMarks(s[k..]) by {
          forall i | 0 <= i < |s[k..]| ensures !Marker(s[k..][i]) {
            assert s[k..][i] == s[i + k];
          }
        }
        SquashShape(s[k..]);
        assert r == " " + rest;
        assert !Marker(' ');
      }
    }
  }

  /** Trimming a text of single-spaced words without markers keeps it so. */
  lemma TrimShape(s: string)
    requires NoMarks(s) && SingleSpaced(s)
    ensures NoMarks(Trim(s)) && SingleSpaced(Trim(s))
  {
    var t := TrimStart(s);
    var r := Trim(s);
    var a := |s| - |t|;
    assert r == s[a..a + |r|] by {
      assert t == s[a..];
      assert r == t[..|r|];
    }
    forall i | 0 <= i < |r| ensures r[i] == s[a + i] {
    }
  }

  /** Text already in the shape `stripMarkdown` produces, with nothing a rule starts with. */
  predicate PlainWords(s: string)
  {
    && NoMarks(s) && SingleSpaced(s)
    && (s != [] ==> !IsWhiteSpace(s[0]) && !IsWhiteSpace(s[|s| - 1]))
    && forall i :: 0 <= i < |s| ==> s[i] != '!' && s[i] != '[' && s[i] != '`'
  }

  /** Single spaces are replaced by single spaces. */
  lemma {:induction false} SquashSingle(s: string)
    requires SingleSpaced(s)
    ensures SquashSpaces(s) == s
    decreases |s|
  {
    if s != [] {
      assert SingleSpaced(s[1..]) by {
        forall i | 0 <= i < |s[1..]| - 1 ensures !(IsWhiteSpace(s[1..][i]) && IsWhiteSpace(s[1..][i + 1])) {
          assert s[1..][i] == s[i + 1] && s[1..][i + 1] == s[i + 2];
        }
      }
      SquashSingle(s[1..]);
      if IsWhiteSpace(s[0]) {
        assert |s| >= 2 ==> !IsWhiteSpace(s[1]);
        assert WhiteRun(s) == 1;
        assert s[..1] == " ";
      }
    }
  }

  lemma DropMarkupPlain(s: string)
    requires PlainWords(s)
    ensures DropMarkup(s) == s
  {
    assert ReplaceAll(Image, [], s) == s by {
      ReplaceWithoutTrigger(Image, [], s);
    }
    assert ReplaceAll(Link, [Group(1)], s) == s by {
      ReplaceWithoutTrigger(Link, [Group(1)], s);
    }
    assert ReplaceAll(Fence, [Lit(" ")], s) == s by {
      ReplaceWithoutTrigger(Fence, [Lit(" ")], s);
    }
    assert ReplaceAll(CodeSpan, [Group(1)], s) == s by {
      ReplaceWithoutTrigger(CodeSpan, [Group(1)], s);
    }
  }

  /** Plain words come through `stripMarkdown` unchanged. */
  lemma StripPlain(s: string)
    requires PlainWords(s)
    ensures StripMarkdown(s) == s
  {
    assert DropMarkup(s) == s by {
      DropMarkupPlain(s);
    }
    assert BlankMarks(s) == s by {
      ReplaceWithoutTrigger(MarkChar, [Lit(" ")], s);
    }
    assert SquashSpaces(s) == s by {
      SquashSingle(s);
    }
    TrimNoop(s);
  }
}
