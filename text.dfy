/**
 * String operations of the JavaScript runtime used by the modelled code:
 * the white-space classes of `trim` and `\s`, prefix tests, and `split` /
 * `join` on a string separator.
 */
module Text {
  import opened Js

  /** A line terminator: what `.` does not match and what `^`/`$` see in multi-line mode. */
  predicate IsLineTerminator(c: char)
  {
    c == '\n' || c == '\r' || c == '\U{2028}' || c == '\U{2029}'
  }

  /** A character that `trim` removes and `\s` matches: white space or a line terminator. */
  predicate IsWhiteSpace(c: char)
  {
    || c == '\t' || c == '\U{000B}' || c == '\U{000C}' || c == ' ' || c == '\U{00A0}'
    || c == '\U{FEFF}' || c == '\U{1680}' || ('\U{2000}' <= c <= '\U{200A}')
    || c == '\U{202F}' || c == '\U{205F}' || c == '\U{3000}'
    || IsLineTerminator(c)
  }

  /** `s.trimStart()`: the suffix left after dropping leading white space. */
  function TrimStart(s: string): (r: string)
    ensures |r| <= |s| && r == s[|s| - |r|..]
    ensures forall i :: 0 <= i < |s| - |r| ==> IsWhiteSpace(s[i])
    ensures r != [] ==> !IsWhiteSpace(r[0])
    decreases |s|
  {
    if s != [] && IsWhiteSpace(s[0]) then TrimStart(s[1..]) else s
  }

  /** `s.trimEnd()`: the prefix left after dropping trailing white space. */
  function TrimEnd(s: string): (r: string)
    ensures |r| <= |s| && r == s[..|r|]
    ensures forall i :: |r| <= i < |s| ==> IsWhiteSpace(s[i])
    ensures r != [] ==> !IsWhiteSpace(r[|r| - 1])
    decreases |s|
  {
    if s != [] && IsWhiteSpace(s[|s| - 1]) then TrimEnd(s[..|s| - 1]) else s
  }

  /** `s.trim()` */
  function Trim(s: string): (r: string)
    ensures |r| <= |s|
    ensures r != [] ==> !IsWhiteSpace(r[0]) && !IsWhiteSpace(r[|r| - 1])
    ensures r == [] <==> forall i :: 0 <= i < |s| ==> IsWhiteSpace(s[i])
    ensures |r| <= |TrimStart(s)| && r == TrimStart(s)[..|r|]
    ensures forall k :: |r| <= k < |TrimStart(s)| ==> IsWhiteSpace(TrimStart(s)[k])
  {
    var t := TrimStart(s);
    var r := TrimEnd(t);
    assert r != [] ==> r[0] == t[0];
    assert r == [] ==> forall i :: 0 <= i < |s| ==> IsWhiteSpace(s[i]) by {
      if r == [] {
        assert t == [];
      }
    }
    r
  }

  /** Trimming a string that has no white space at either end changes nothing. */
  lemma {:induction false} TrimNoop(s: string)
    requires s == [] || (!IsWhiteSpace(s[0]) && !IsWhiteSpace(s[|s| - 1]))
    ensures Trim(s) == s
  {
    assert TrimStart(s) == s;
    assert TrimEnd(s) == s;
  }

  /** `s.startsWith(p)` */
  predicate StartsWith(s: string, p: string)
  {
    |p| <= |s| && s[..|p|] == p
  }

  /** `s` does not start with `p` when they differ at index `i`. */
  lemma DiffersAt(s: string, p: string, i: nat)
    requires i < |p| && i < |s| && s[i] != p[i]
    ensures !StartsWith(s, p)
  {
    if |p| <= |s| {
      assert s[..|p|][i] == s[i];
    }
  }

  /** `sep` occurs in `s` at index `i`. */
  predicate Occurs(s: string, sep: string, i: int)
  {
    0 <= i && i + |sep| <= |s| && s[i..i + |sep|] == sep
  }

  /** `sep` does not occur anywhere in `s`. */
  predicate Free(s: string, sep: string)
  {
    forall i :: 0 <= i <= |s| ==> !Occurs(s, sep, i)
  }

  /** A string without the character `c` does not contain the separator `[c]`. */
  lemma CharFree(s: string, c: char)
    requires forall i :: 0 <= i < |s| ==> s[i] != c
    ensures Free(s, [c])
  {
    forall i | 0 <= i < |s| ensures !Occurs(s, [c], i) {
      assert s[i..i + 1] == [s[i]];
    }
  }

  /** A piece of a string without `sep` has no `sep` either. */
  lemma FreeSlice(s: string, sep: string, i: nat, j: nat)
    requires Free(s, sep) && i <= j <= |s|
    ensures Free(s[i..j], sep)
  {
    forall k | 0 <= k <= |s[i..j]| ensures !Occurs(s[i..j], sep, k) {
      if Occurs(s[i..j], sep, k) {
        forall m | 0 <= m < |sep| ensures s[i + k + m] == sep[m] {
          assert s[i..j][k..k + |sep|][m] == sep[m];
        }
        assert s[i + k..i + k + |sep|] == sep;
        assert Occurs(s, sep, i + k);
      }
    }
  }

  /** Trimming keeps a string free of `sep`. */
  lemma FreeTrim(s: string, sep: string)
    requires Free(s, sep)
    ensures Free(Trim(s), sep)
  {
    var t := TrimStart(s);
    FreeSlice(s, sep, |s| - |t|, |s|);
    assert s[|s| - |t|..|s|] == t;
    FreeSlice(t, sep, 0, |TrimEnd(t)|);
  }

  /** `s.indexOf(sep)`: the first occurrence, if any. */
  function IndexOf(s: string, sep: string): (r: Option<nat>)
    requires |sep| > 0
    ensures r.Some? ==> Occurs(s, sep, r.value) && forall j :: 0 <= j < r.value ==> !Occurs(s, sep, j)
    ensures r.None? ==> Free(s, sep)
    decreases |s|
  {
    if |s| < |sep| then None
    else if s[..|sep|] == sep then Some(0)
    else
      var rest := IndexOf(s[1..], sep);
      ShiftOccurs(s, sep);
      assert !Occurs(s, sep, 0);
      if rest.None? then
        assert Free(s, sep) by {
          forall i | 1 <= i <= |s| ensures !Occurs(s, sep, i) {
            assert !Occurs(s[1..], sep, i - 1);
          }
        }
        None
      else
        assert forall j :: 1 <= j < rest.value + 1 ==> !Occurs(s, sep, j) by {
          forall j | 1 <= j < rest.value + 1 ensures !Occurs(s, sep, j) {
            assert !Occurs(s[1..], sep, j - 1);
          }
        }
        Some(rest.value + 1)
  }

  /** An occurrence in `s[1..]` is an occurrence in `s` one place later. */
  lemma ShiftOccurs(s: string, sep: string)
    requires s != []
    ensures forall j :: 0 <= j ==> (Occurs(s[1..], sep, j) <==> Occurs(s, sep, j + 1))
  {
    forall j | 0 <= j ensures Occurs(s[1..], sep, j) <==> Occurs(s, sep, j + 1) {
      if 0 <= j && j + |sep| <= |s| - 1 {
        assert s[1..][j..j + |sep|] == s[j + 1..j + 1 + |sep|];
      }
    }
  }

  /** `s.split(sep)` for a non-empty string separator. */
  function Split(s: string, sep: string): (parts: seq<string>)
    requires |sep| > 0
    ensures |parts| >= 1
    ensures forall k :: 0 <= k < |parts| ==> Free(parts[k], sep)
    decreases |s|
  {
    match IndexOf(s, sep)
    case None => [s]
    case Some(i) =>
      assert Free(s[..i], sep) by {
        forall j ensures !Occurs(s[..i], sep, j) {
          if Occurs(s[..i], sep, j) {
            assert s[..i][j..j + |sep|] == s[j..j + |sep|];
            assert Occurs(s, sep, j);
          }
        }
      }
      [s[..i]] + Split(s[i + |sep|..], sep)
  }

  /** `parts.join(sep)` */
  function Join(parts: seq<string>, sep: string): string
  {
    if |parts| == 0 then ""
    else if |parts| == 1 then parts[0]
    else parts[0] + sep + Join(parts[1..], sep)
  }

  /** Joining the pieces of a split with the same separator gives the string back. */
  lemma {:induction false} JoinSplit(s: string, sep: string)
    requires |sep| > 0
    ensures Join(Split(s, sep), sep) == s
    decreases |s|
  {
    var r := IndexOf(s, sep);
    if r.Some? {
      var i := r.value;
      var rest := s[i + |sep|..];
      var tail := Split(rest, sep);
      assert Split(s, sep) == [s[..i]] + tail;
      JoinJoin(s[..i], tail, sep);
      JoinSplit(rest, sep);
      assert s[i..i + |sep|] == sep;
      assert s == s[..i] + s[i..i + |sep|] + rest;
    }
  }

  /** Joining a piece in front of at least one more. */
  lemma JoinJoin(head: string, tail: seq<string>, sep: string)
    requires |tail| >= 1
    ensures Join([head] + tail, sep) == head + sep + Join(tail, sep)
  {
    assert ([head] + tail)[1..] == tail;
  }

  /** Joining two non-empty lists of pieces is joining their joins. */
  lemma {:induction false} JoinAppend(a: seq<string>, b: seq<string>, sep: string)
    requires |a| >= 1 && |b| >= 1
    ensures Join(a + b, sep) == Join(a, sep) + sep + Join(b, sep)
    decreases |a|
  {
    if |a| == 1 {
      JoinJoin(a[0], b, sep);
      assert [a[0]] + b == a + b;
    } else {
      var j1, jb := Join(a[1..], sep), Join(b, sep);
      assert Join(a + b, sep) == a[0] + sep + Join(a[1..] + b, sep) by {
        JoinJoin(a[0], a[1..] + b, sep);
        assert [a[0]] + (a[1..] + b) == a + b;
      }
      assert Join(a, sep) == a[0] + sep + j1 by {
        JoinJoin(a[0], a[1..], sep);
        assert [a[0]] + a[1..] == a;
      }
      JoinAppend(a[1..], b, sep);
      Regroup5(a[0], sep, j1, sep, jb);
    }
  }

  lemma Regroup5(a: string, b: string, c: string, d: string, e: string)
    ensures a + b + (c + d + e) == a + b + c + d + e
  {
  }

  /** Joining cut at a position: the two halves joined by the separator. */
  lemma JoinAt(parts: seq<string>, k: nat, sep: string)
    requires 1 <= k < |parts|
    ensures Join(parts, sep) == Join(parts[..k], sep) + (sep + Join(parts[k..], sep))
  {
    var a, b := parts[..k], parts[k..];
    JoinAppend(a, b, sep);
    assert a + b == parts;
    assert Join(a, sep) + sep + Join(b, sep) == Join(a, sep) + (sep + Join(b, sep));
  }

  /**
   * Splitting on a one-character separator undoes a join of pieces that do
   * not contain it.
   */
  lemma {:induction false} SplitJoin(parts: seq<string>, sep: string)
    requires |sep| == 1 && |parts| >= 1
    requires forall k :: 0 <= k < |parts| ==> Free(parts[k], sep)
    ensures Split(Join(parts, sep), sep) == parts
  {
    if |parts| == 1 {
      assert IndexOf(parts[0], sep).None?;
    } else {
      var s := Join(parts, sep);
      var head := parts[0];
      JoinJoin(head, parts[1..], sep);
      assert [head] + parts[1..] == parts;
      assert s == head + sep + Join(parts[1..], sep);
      assert Occurs(s, sep, |head|);
      forall j | 0 <= j < |head| ensures !Occurs(s, sep, j) {
        assert s[j..j + 1] == head[j..j + 1];
        assert !Occurs(head, sep, j);
      }
      assert IndexOf(s, sep) == Some(|head|);
      assert s[|head| + 1..] == Join(parts[1..], sep);
      assert s[..|head|] == head;
      SplitJoin(parts[1..], sep);
      assert Split(s, sep) == [head] + Split(Join(parts[1..], sep), sep);
    }
  }
}
