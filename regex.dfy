/**
 * The regular-expression replacements the renderer and the card-text helper
 * perform, each written out as the match it finds at a given position.
 *
 * A global `s.replace(/re/g, tpl)` tries the expression at each position from
 * left to right; where it matches, the match is replaced by the expanded
 * template and the scan resumes after it, otherwise one character is copied.
 * None of the expressions used here can match the empty string. The match at
 * a position is the one JavaScript's backtracking picks: for each expression
 * below, the comment says why the search is deterministic in that way.
 */
module Regex {
  import opened Js
  import opened Text

  /** A match at the start of the text: its length and its groups (`$0` is the whole match). */
  datatype Hit = Hit(len: nat, groups: seq<string>)

  /** A piece of a replacement string: literal text or a group reference `$n`. */
  datatype Piece = Lit(text: string) | Group(n: nat)

  /** The expressions of the modelled `replace` calls that are not anchored to lines. */
  datatype Pattern =
    | CrLf       // /\r\n/g
    | ListRun    // /((<li.*<\/li>\n?)+)/g
    | ListBlock  // /(<li.*<\/li>(\n<li.*<\/li>)*)/g, the list expression without the trailing newline
    | Bold       // /\*\*(.*?)\*\*/g
    | Italic     // /\*(.*?)\*/g
    | CodeSpan   // /`([^`]+)`/g
    | Link       // /\[([^\]]+)\]\(([^)]+)\)/g
    | Image      // /!\[.*?\]\(.*?\)/g
    | Fence      // /```[\s\S]*?```/g
    | MarkChar   // /[*_~>#-]/g
    | Spaces     // /\s+/g
    | Newline    // /\n/g

  /** The replacement string with each `$n` replaced by group n (all references used are to existing groups). */
  function Expand(tpl: seq<Piece>, groups: seq<string>): (r: string)
    ensures (forall k :: 0 <= k < |tpl| ==> tpl[k].Lit?) ==> |r| == TemplateLength(tpl)
  {
    if tpl == [] then ""
    else
      (match tpl[0]
       case Lit(t) => t
       case Group(n) => if n < |groups| then groups[n] else "")
      + Expand(tpl[1..], groups)
  }

  function TemplateLength(tpl: seq<Piece>): nat
  {
    if tpl == [] then 0
    else (if tpl[0].Lit? then |tpl[0].text| else 0) + TemplateLength(tpl[1..])
  }

  /** The length of the line `s` starts with: up to, not including, the first line terminator. */
  function LineEnd(s: string): (k: nat)
    ensures k <= |s|
    ensures forall i :: 0 <= i < k ==> !IsLineTerminator(s[i])
    ensures k < |s| ==> IsLineTerminator(s[k])
  {
    if s == [] || IsLineTerminator(s[0]) then 0 else 1 + LineEnd(s[1..])
  }

  /** The length of the run of `\s` characters `s` starts with. */
  function WhiteRun(s: string): (k: nat)
    ensures k <= |s|
    ensures forall i :: 0 <= i < k ==> IsWhiteSpace(s[i])
    ensures k < |s| ==> !IsWhiteSpace(s[k])
  {
    if s == [] || !IsWhiteSpace(s[0]) then 0 else 1 + WhiteRun(s[1..])
  }

  /** `s.lastIndexOf(sep)`: the last occurrence, if any. */
  function LastIndexOf(s: string, sep: string): (r: Option<nat>)
    requires |sep| > 0
    ensures r.Some? ==> Occurs(s, sep, r.value) && forall j :: r.value < j ==> !Occurs(s, sep, j)
    ensures r.None? ==> Free(s, sep)
    decreases |s|
  {
    if |s| < |sep| then None
    else if Occurs(s, sep, |s| - |sep|) then Some(|s| - |sep|)
    else
      DropLast(s, sep);
      LastIndexOf(s[..|s| - 1], sep)
  }

  /** Without the last character, `s` has the same occurrences except one ending at its end. */
  lemma DropLast(s: string, sep: string)
    requires |s| >= 1
    ensures forall j :: Occurs(s, sep, j) ==> j + |sep| == |s| || Occurs(s[..|s| - 1], sep, j)
    ensures forall j :: Occurs(s[..|s| - 1], sep, j) ==> Occurs(s, sep, j)
  {
    var t := s[..|s| - 1];
    forall j | Occurs(s, sep, j) && j + |sep| != |s| ensures Occurs(t, sep, j) {
      assert t[j..j + |sep|] == s[j..j + |sep|];
    }
    forall j | Occurs(t, sep, j) ensures Occurs(s, sep, j) {
      assert t[j..j + |sep|] == s[j..j + |sep|];
    }
  }

  /**
   * One `<li.*<\/li>` at the start of `s`, as its length (0 when there is
   * none). The greedy `.*` cannot cross a line terminator, so it backs off to
   * the last `</li>` on the line after the opening `<li`.
   */
  function LiItem(s: string): (n: nat)
    ensures n <= |s|
    ensures n > 0 ==> n >= 8 && StartsWith(s, "<li") && s[n - 5..n] == "</li>"
    ensures n > 0 ==> forall i :: 3 <= i < n ==> !IsLineTerminator(s[i])
  {
    if !StartsWith(s, "<li") then 0
    else
      var rest := s[3..];
      var line := rest[..LineEnd(rest)];
      match LastIndexOf(line, "</li>")
      case None => 0
      case Some(j) =>
        assert line[j..j + 5] == s[3 + j..3 + j + 5];
        3 + j + 5
  }

  /** One `<li.*<\/li>\n?`: an item and the newline after it, if there is one. */
  function LiUnit(s: string): (n: nat)
    ensures n <= |s|
    ensures n > 0 ==> n >= 8 && StartsWith(s, "<li")
  {
    var e := LiItem(s);
    if e == 0 then 0 else e + (if e < |s| && s[e] == '\n' then 1 else 0)
  }

  /** The end of a further item carries over from the text after it to the text before it. */
  lemma MoreEnd(s: string, k: nat, m: nat)
    requires 1 + k + m <= |s| && k >= 5
    requires s[1..][k - 5..k] == "</li>"
    requires m > 0 ==> m >= 5 && s[1 + k..][m - 5..m] == "</li>"
    requires !ItemFollows(s[1 + k..], m)
    ensures s[1 + k + m - 5..1 + k + m] == "</li>"
    ensures !ItemFollows(s, 1 + k + m)
  {
    assert s[1..][k - 5..k] == s[1 + k - 5..1 + k];
    ShiftEnd(s, 1 + k, m);
  }

  /**
   * Text that ends an item at `e`, followed by `m` more characters that end
   * with an item unless `m` is 0 and are not followed by a further item,
   * ends with an item at `e + m` and is not followed by a further item.
   */
  lemma ShiftEnd(s: string, e: nat, m: nat)
    requires 5 <= e && e + m <= |s|
    requires s[e - 5..e] == "</li>"
    requires m > 0 ==> m >= 5 && s[e..][m - 5..m] == "</li>"
    requires !ItemFollows(s[e..], m)
    ensures s[e + m - 5..e + m] == "</li>"
    ensures !ItemFollows(s, e + m)
  {
    if m > 0 {
      assert s[e..][m - 5..m] == s[e + m - 5..e + m];
    }
    if e + m < |s| {
      assert s[e..][m] == s[e + m];
      assert s[e..][m + 1..] == s[e + m + 1..];
    }
  }

  /** A newline at `n` and an item right after it. */
  predicate ItemFollows(s: string, n: nat)
  {
    n < |s| && s[n] == '\n' && LiItem(s[n + 1..]) > 0
  }

  /** The greedy `(\n<li.*<\/li>)*`: further items, each after a newline. */
  function LiMore(s: string): (n: nat)
    ensures n <= |s|
    decreases |s|
  {
    if s != [] && s[0] == '\n' && LiItem(s[1..]) > 0 then
      var e := 1 + LiItem(s[1..]);
      e + LiMore(s[e..])
    else 0
  }

  /**
   * The further items end with `</li>`, and the greedy repetition stops only
   * where no newline and item follow.
   */
  lemma {:induction false} LiMoreEnd(s: string)
    ensures var n := LiMore(s);
            && (n > 0 ==> n >= 9 && s[n - 5..n] == "</li>")
            && !ItemFollows(s, n)
    decreases |s|
  {
    if s != [] && s[0] == '\n' && LiItem(s[1..]) > 0 {
      var k := LiItem(s[1..]);
      var t := s[1 + k..];
      assert LiMore(s) == 1 + k + LiMore(t);
      LiMoreEnd(t);
      MoreEnd(s, k, LiMore(t));
    } else {
      assert LiMore(s) == 0;
    }
  }

  /** The greedy `(...)+` over `LiUnit`: the length of the whole run of units. */
  function LiRun(s: string): (n: nat)
    ensures n <= |s|
    ensures n > 0 ==> StartsWith(s, "<li")
    decreases |s|
  {
    var u := LiUnit(s);
    if u == 0 then 0 else u + LiRun(s[u..])
  }

  /** A hit of `len` characters at the start of `s`. */
  predicate HitOf(s: string, h: Option<Hit>)
  {
    h.Some? ==> 1 <= h.value.len <= |s| && |h.value.groups| >= 1 && h.value.groups[0] == s[..h.value.len]
  }

  /** `\*\*(.*?)\*\*`: the lazy `.*?` stops at the first closing `**` on the same line. */
  function FindBold(s: string): (h: Option<Hit>)
    ensures HitOf(s, h)
    ensures h.Some? ==> h.value.len >= 4 && StartsWith(s, "**") && s[h.value.len - 2..h.value.len] == "**"
  {
    if !StartsWith(s, "**") then None
    else
      var rest := s[2..];
      match IndexOf(rest[..LineEnd(rest)], "**")
      case None => None
      case Some(k) =>
        assert rest[..LineEnd(rest)][k..k + 2] == rest[k..k + 2] == s[2 + k..4 + k];
        Some(Hit(k + 4, [s[..k + 4], rest[..k]]))
  }

  /** `\*(.*?)\*`: the lazy `.*?` stops at the first closing `*` on the same line. */
  function FindItalic(s: string): (h: Option<Hit>)
    ensures HitOf(s, h)
    ensures h.Some? ==> StartsWith(s, "*") && s[h.value.len - 1] == '*'
  {
    if !StartsWith(s, "*") then None
    else
      var rest := s[1..];
      match IndexOf(rest[..LineEnd(rest)], "*")
      case None => None
      case Some(k) =>
        assert rest[..LineEnd(rest)][k..k + 1] == rest[k..k + 1] == [s[1 + k]];
        Some(Hit(k + 2, [s[..k + 2], rest[..k]]))
  }

  /** `` `([^`]+)` ``: `[^`]+` runs to the next backtick, across lines; an empty pair does not match. */
  function FindCodeSpan(s: string): (h: Option<Hit>)
    ensures HitOf(s, h)
    ensures h.Some? ==> h.value.len >= 3 && s[0] == '`' && s[h.value.len - 1] == '`'
  {
    if !StartsWith(s, "`") then None
    else
      var rest := s[1..];
      match IndexOf(rest, "`")
      case None => None
      case Some(k) =>
        assert rest[k..k + 1] == [s[1 + k]];
        if k == 0 then None else Some(Hit(k + 2, [s[..k + 2], rest[..k]]))
  }

  /**
   * `\[([^\]]+)\]\(([^)]+)\)`: each greedy class runs to the first closing
   * bracket, which must follow at least one character.
   */
  function FindLink(s: string): (h: Option<Hit>)
    ensures HitOf(s, h)
    ensures h.Some? ==> s[0] == '[' && s[h.value.len - 1] == ')' && |h.value.groups| == 3
  {
    if !StartsWith(s, "[") then None
    else
      var rest := s[1..];
      match IndexOf(rest, "]")
      case None => None
      case Some(i) =>
        if i == 0 || i + 1 >= |rest| || rest[i + 1] != '(' then None
        else
          var after := rest[i + 2..];
          match IndexOf(after, ")")
          case None => None
          case Some(j) =>
            assert after[j..j + 1] == [s[i + j + 3]];
            if j == 0 then None
            else Some(Hit(i + j + 4, [s[..i + j + 4], rest[..i], after[..j]]))
  }

  /**
   * `!\[.*?\]\(.*?\)`: the first `](` on the line, then the first `)` after
   * it on the line; a later `](` cannot succeed when the first one fails,
   * since it leaves less of the line to find `)` in.
   */
  function FindImage(s: string): (h: Option<Hit>)
    ensures HitOf(s, h)
    ensures h.Some? ==> StartsWith(s, "![") && s[h.value.len - 1] == ')'
  {
    if !StartsWith(s, "![") then None
    else
      var rest := s[2..];
      var line := rest[..LineEnd(rest)];
      match IndexOf(line, "](")
      case None => None
      case Some(k) =>
        match IndexOf(line[k + 2..], ")")
        case None => None
        case Some(m) =>
          assert line[k + 2..][m..m + 1] == [line[k + 2 + m]];
          assert line[k + 2 + m] == rest[k + 2 + m] == s[k + m + 4];
          Some(Hit(k + m + 5, [s[..k + m + 5]]))
  }

  /** ```` ```[\s\S]*?``` ````: the first closing fence, across lines. */
  function FindFence(s: string): (h: Option<Hit>)
    ensures HitOf(s, h)
    ensures h.Some? ==> h.value.len >= 6 && StartsWith(s, "```")
  {
    if !StartsWith(s, "```") then None
    else
      match IndexOf(s[3..], "```")
      case None => None
      case Some(k) =>
        assert s[3..][k..k + 3] == s[3 + k..6 + k];
        Some(Hit(k + 6, [s[..k + 6]]))
  }

  /** The match of `p` at the start of `s`, if any. */
  function Find(p: Pattern, s: string): (h: Option<Hit>)
    ensures HitOf(s, h)
  {
    match p
    case CrLf => if StartsWith(s, "\r\n") then Some(Hit(2, [s[..2]])) else None
    case ListRun =>
      var n := LiRun(s);
      if n == 0 then None else Some(Hit(n, [s[..n], s[..n]]))
    case ListBlock =>
      var e := LiItem(s);
      if e == 0 then None
      else
        var n := e + LiMore(s[e..]);
        Some(Hit(n, [s[..n], s[..n]]))
    case Bold => FindBold(s)
    case Italic => FindItalic(s)
    case CodeSpan => FindCodeSpan(s)
    case Link => FindLink(s)
    case Image => FindImage(s)
    case Fence => FindFence(s)
    case MarkChar => if s != [] && s[0] in "*_~>#-" then Some(Hit(1, [s[..1]])) else None
    case Spaces =>
      var k := WhiteRun(s);
      if k == 0 then None else Some(Hit(k, [s[..k]]))
    case Newline => if s != [] && s[0] == '\n' then Some(Hit(1, [s[..1]])) else None
  }

  /**
   * The corrected list expression at the start of `s` matches exactly when
   * an item starts there; the match ends with `</li>` and is maximal: what
   * follows it is not a newline and a further item.
   */
  lemma FindListBlock(s: string)
    ensures Find(ListBlock, s).Some? <==> LiItem(s) > 0
    ensures LiItem(s) > 0 ==>
              var n := LiItem(s) + LiMore(s[LiItem(s)..]);
              && Find(ListBlock, s) == Some(Hit(n, [s[..n], s[..n]]))
              && n >= 8 && StartsWith(s, "<li") && s[n - 5..n] == "</li>"
              && !ItemFollows(s, n)
  {
    if LiItem(s) > 0 {
      var e := LiItem(s);
      var m := LiMore(s[e..]);
      assert Find(ListBlock, s) == Some(Hit(e + m, [s[..e + m], s[..e + m]]));
      ListBlockEnd(s, e, m);
    }
  }

  /** An item followed by the greedy further items ends with `</li>` and cannot be extended. */
  lemma ListBlockEnd(s: string, e: nat, m: nat)
    requires e == LiItem(s) && e > 0 && m == LiMore(s[e..])
    ensures e + m <= |s| && s[e + m - 5..e + m] == "</li>"
    ensures !ItemFollows(s, e + m)
  {
    LiMoreEnd(s[e..]);
    ShiftEnd(s, e, m);
  }

  /** `s.replace(p, tpl)` with the global flag. */
  function ReplaceAll(p: Pattern, tpl: seq<Piece>, s: string): string
    decreases |s|
  {
    if s == [] then ""
    else
        match Find(p, s)
      case Some(h) => Expand(tpl, h.groups) + ReplaceAll(p, tpl, s[h.len..])
      case None => [s[0]] + ReplaceAll(p, tpl, s[1..])
  }

  /** `p` matches at no position of `s`. */
  predicate NoMatch(p: Pattern, s: string)
  {
    forall i :: 0 <= i < |s| ==> Find(p, s[i..]).None?
  }

  /** Where nothing matches, the replacement changes nothing. */
  lemma {:induction false} ReplaceNothing(p: Pattern, tpl: seq<Piece>, s: string)
    requires NoMatch(p, s)
    ensures ReplaceAll(p, tpl, s) == s
    decreases |s|
  {
    if s != [] {
      assert Find(p, s[0..]).None?;
      assert s[0..] == s;
      assert NoMatch(p, s[1..]) by {
        forall i | 0 <= i < |s[1..]| ensures Find(p, s[1..][i..]).None? {
          assert s[1..][i..] == s[i + 1..];
        }
      }
      ReplaceNothing(p, tpl, s[1..]);
    }
  }

  /** A prefix in which nothing matches is copied, and the scan goes on after it. */
  lemma {:induction false} ReplaceSkip(p: Pattern, tpl: seq<Piece>, a: string, b: string)
    requires forall i :: 0 <= i < |a| ==> Find(p, (a + b)[i..]).None?
    ensures ReplaceAll(p, tpl, a + b) == a + ReplaceAll(p, tpl, b)
    decreases |a|
  {
    if a != [] {
      StepOver(p, tpl, a, b);
      ReplaceSkip(p, tpl, a[1..], b);
      ConsAgain(a, ReplaceAll(p, tpl, b));
    } else {
      assert a + b == b;
    }
  }

  /** The first character of an unmatched prefix is copied, and the rest of the prefix stays unmatched. */
  lemma StepOver(p: Pattern, tpl: seq<Piece>, a: string, b: string)
    requires a != [] && forall i :: 0 <= i < |a| ==> Find(p, (a + b)[i..]).None?
    ensures ReplaceAll(p, tpl, a + b) == [a[0]] + ReplaceAll(p, tpl, a[1..] + b)
    ensures forall i :: 0 <= i < |a[1..]| ==> Find(p, (a[1..] + b)[i..]).None?
  {
    var s := a + b;
    assert Find(p, s).None? by {
      assert Find(p, s[0..]).None?;
      assert s[0..] == s;
    }
    assert s[1..] == a[1..] + b;
    ReplaceUnmatched(p, tpl, s);
    forall i | 0 <= i < |a[1..]| ensures Find(p, (a[1..] + b)[i..]).None? {
      assert (a[1..] + b)[i..] == s[i + 1..];
    }
  }

  lemma ConsAgain(a: string, r: string)
    requires a != []
    ensures [a[0]] + (a[1..] + r) == a + r
  {
    assert [a[0]] + a[1..] == a;
  }

  /** Where nothing matches at the start, the first character is copied. */
  lemma ReplaceUnmatched(p: Pattern, tpl: seq<Piece>, s: string)
    requires s != [] && Find(p, s).None?
    ensures ReplaceAll(p, tpl, s) == [s[0]] + ReplaceAll(p, tpl, s[1..])
  {
  }

  /** A match at the start is replaced, and the scan goes on after it. */
  lemma ReplaceAtStart(p: Pattern, tpl: seq<Piece>, s: string, h: Hit)
    requires Find(p, s) == Some(h)
    ensures ReplaceAll(p, tpl, s) == Expand(tpl, h.groups) + ReplaceAll(p, tpl, s[h.len..])
  {
  }

  /** The first character each pattern needs. */
  predicate Trigger(p: Pattern, c: char)
  {
    match p
    case CrLf => c == '\r'
    case ListRun => c == '<'
    case ListBlock => c == '<'
    case Bold => c == '*'
    case Italic => c == '*'
    case CodeSpan => c == '`'
    case Link => c == '['
    case Image => c == '!'
    case Fence => c == '`'
    case MarkChar => c in "*_~>#-"
    case Spaces => IsWhiteSpace(c)
    case Newline => c == '\n'
  }

  lemma FindNeedsTrigger(p: Pattern, s: string)
    ensures Find(p, s).Some? ==> s != [] && Trigger(p, s[0])
  {
  }

  /** Text without the pattern's first character is left alone. */
  lemma ReplaceWithoutTrigger(p: Pattern, tpl: seq<Piece>, s: string)
    requires forall i :: 0 <= i < |s| ==> !Trigger(p, s[i])
    ensures ReplaceAll(p, tpl, s) == s
  {
    forall i | 0 <= i < |s| ensures Find(p, s[i..]).None? {
      FindNeedsTrigger(p, s[i..]);
    }
    ReplaceNothing(p, tpl, s);
  }
}
