/**
 * The handful of Python `str` operations both sides of the bridge rely on:
 * `strip()`, `lower()`, `in` (substring test), `split(sep)` on one
 * character, slicing and padding to a fixed width.
 */
module Text {

  /** The characters Python's `str.isspace()` accepts: the complete set
      that `str.strip()` with no argument removes. */
  const WhiteSpace: set<char> :=
    {' ', '\t', '\n', '\U{0b}', '\U{0c}', '\r', '\U{1c}', '\U{1d}', '\U{1e}', '\U{1f}',
     '\U{85}', '\U{a0}', '\U{1680}',
     '\U{2000}', '\U{2001}', '\U{2002}', '\U{2003}', '\U{2004}', '\U{2005}',
     '\U{2006}', '\U{2007}', '\U{2008}', '\U{2009}', '\U{200a}',
     '\U{2028}', '\U{2029}', '\U{202f}', '\U{205f}', '\U{3000}'}

  predicate IsSpace(c: char)
  {
    c in WhiteSpace
  }

  function TrimStart(s: string): string
  {
    if |s| > 0 && IsSpace(s[0]) then TrimStart(s[1..]) else s
  }

  function TrimEnd(s: string): string
  {
    if |s| > 0 && IsSpace(s[|s| - 1]) then TrimEnd(s[..|s| - 1]) else s
  }

  /** Python's `s.strip()`. */
  function Strip(s: string): string
  {
    TrimEnd(TrimStart(s))
  }

  predicate AllSpace(t: string)
  {
    forall k :: 0 <= k < |t| ==> IsSpace(t[k])
  }

  /** `TrimStart` drops exactly the leading white space. */
  lemma {:induction false} TrimStartSpec(s: string)
    ensures var r := TrimStart(s);
            && |r| <= |s| && r == s[|s| - |r|..] && AllSpace(s[..|s| - |r|])
            && (r == [] || !IsSpace(r[0]))
  {
    if |s| > 0 && IsSpace(s[0]) {
      TrimStartSpec(s[1..]);
      var r := TrimStart(s);
      assert s[..|s| - |r|] == [s[0]] + s[1..][..|s| - 1 - |r|];
    }
  }

  /** `TrimEnd` drops exactly the trailing white space. */
  lemma {:induction false} TrimEndSpec(s: string)
    ensures var r := TrimEnd(s);
            && |r| <= |s| && r == s[..|r|] && AllSpace(s[|r|..])
            && (r == [] || !IsSpace(r[|r| - 1]))
  {
    if |s| > 0 && IsSpace(s[|s| - 1]) {
      var t := s[..|s| - 1];
      TrimEndSpec(t);
      var r := TrimEnd(s);
      assert s[|r|..] == t[|r|..] + [s[|s| - 1]];
      assert t[..|r|] == s[..|r|];
    }
  }

  /** `r` is what is left of `s` between a white-space prefix of length `i`
      and a white-space suffix. */
  predicate StrippedAt(s: string, r: string, i: int)
  {
    0 <= i && i + |r| <= |s| && r == s[i..i + |r|] && AllSpace(s[..i]) && AllSpace(s[i + |r|..])
  }

  /** `strip()` leaves the slice of `s` between its leading and its trailing
      white space, which itself starts and ends with other characters. */
  lemma StripSpec(s: string)
    ensures exists i :: StrippedAt(s, Strip(s), i)
    ensures Strip(s) == [] || (!IsSpace(Strip(s)[0]) && !IsSpace(Strip(s)[|Strip(s)| - 1]))
  {
    var t := TrimStart(s);
    var r := TrimEnd(t);
    TrimStartSpec(s);
    TrimEndSpec(t);
    var i := |s| - |t|;
    assert r == s[i..i + |r|] by {
      assert r == t[..|r|] && t == s[i..];
    }
    assert s[i + |r|..] == t[|r|..];
    assert 0 <= i && i + |r| <= |s|;
    assert AllSpace(s[..i]);
    assert AllSpace(s[i + |r|..]);
    assert r == Strip(s);
    assert StrippedAt(s, r, i);
    if r != [] {
      assert r[0] == t[0];
    }
  }

  /** A stripped text is empty exactly when the text is all white space. */
  lemma StripEmpty(s: string)
    ensures Strip(s) == [] <==> AllSpace(s)
  {
    StripSpec(s);
    var r := Strip(s);
    var i :| StrippedAt(s, r, i);
    if r != [] {
      assert s[i] == r[0] && !IsSpace(s[i]);
    } else {
      assert s == s[..i] + s[i..];
    }
  }

  /** A non-empty text that neither starts nor ends with white space. */
  predicate Trimmed(s: string)
  {
    s != [] && !IsSpace(s[0]) && !IsSpace(s[|s| - 1])
  }

  /** Leading white space in front of a character that is not white space
      is all that `TrimStart` removes. */
  lemma {:induction false} TrimStartBefore(lead: string, t: string)
    requires AllSpace(lead) && t != [] && !IsSpace(t[0])
    ensures TrimStart(lead + t) == t
    decreases |lead|
  {
    if lead == [] {
      assert lead + t == t;
    } else {
      assert (lead + t)[0] == lead[0];
      assert (lead + t)[1..] == lead[1..] + t;
      assert AllSpace(lead[1..]) by {
        forall k | 0 <= k < |lead[1..]| ensures IsSpace(lead[1..][k]) {
          assert lead[1..][k] == lead[k + 1];
        }
      }
      TrimStartBefore(lead[1..], t);
    }
  }

  /** Trailing white space behind a character that is not white space is
      all that `TrimEnd` removes. */
  lemma {:induction false} TrimEndAfter(t: string, tail: string)
    requires AllSpace(tail) && t != [] && !IsSpace(t[|t| - 1])
    ensures TrimEnd(t + tail) == t
    decreases |tail|
  {
    if tail == [] {
      assert t + tail == t;
    } else {
      var u := t + tail;
      var shorter := tail[..|tail| - 1];
      assert u[|u| - 1] == tail[|tail| - 1];
      assert u[..|u| - 1] == t + shorter;
      assert AllSpace(shorter) by {
        forall k | 0 <= k < |shorter| ensures IsSpace(shorter[k]) {
          assert shorter[k] == tail[k];
        }
      }
      TrimEndAfter(t, shorter);
    }
  }

  /** `strip()` removes exactly the white space around a trimmed text. */
  lemma StripAround(lead: string, s: string, tail: string)
    requires Trimmed(s) && AllSpace(lead) && AllSpace(tail)
    ensures Strip(lead + s + tail) == s
  {
    assert lead + s + tail == lead + (s + tail);
    assert (s + tail)[0] == s[0];
    TrimStartBefore(lead, s + tail);
    TrimEndAfter(s, tail);
  }

  function LowerChar(c: char): char
  {
    if 'A' <= c <= 'Z' then (c as int + 32) as char else c
  }

  /** Python's `s.lower()` restricted to ASCII letters. */
  function Lower(s: string): (r: string)
    ensures |r| == |s|
    ensures forall k :: 0 <= k < |s| ==> r[k] == LowerChar(s[k])
  {
    if s == [] then [] else [LowerChar(s[0])] + Lower(s[1..])
  }

  predicate IsPrefix(p: string, s: string)
  {
    |p| <= |s| && s[..|p|] == p
  }

  /** Python's `sub in s`. */
  predicate Contains(s: string, sub: string)
    decreases |s|
  {
    IsPrefix(sub, s) || (|s| > 0 && Contains(s[1..], sub))
  }

  predicate OccursAt(s: string, sub: string, i: int)
  {
    0 <= i <= |s| - |sub| && s[i..i + |sub|] == sub
  }

  /** `Contains` finds `sub` exactly when `sub` occurs at some position. */
  lemma {:induction false} ContainsOccurs(s: string, sub: string)
    ensures Contains(s, sub) <==> exists i :: OccursAt(s, sub, i)
    decreases |s|
  {
    if IsPrefix(sub, s) {
      assert OccursAt(s, sub, 0);
    } else if |s| == 0 {
    } else {
      ContainsOccurs(s[1..], sub);
      if exists i :: OccursAt(s, sub, i) {
        var i :| OccursAt(s, sub, i);
        assert i != 0;
        assert OccursAt(s[1..], sub, i - 1);
      }
      if Contains(s[1..], sub) {
        var j :| OccursAt(s[1..], sub, j);
        assert s[1..][j..j + |sub|] == s[j + 1..j + 1 + |sub|];
        assert OccursAt(s, sub, j + 1);
      }
    }
  }

  /** Python's `s.split(sep)` for a one-character separator: the pieces
      between separators, always at least one. */
  function Split(s: string, sep: char): (parts: seq<string>)
    ensures |parts| >= 1
    decreases |s|
  {
    if s == [] then [""]
    else if s[0] == sep then [""] + Split(s[1..], sep)
    else
      var rest := Split(s[1..], sep);
      [[s[0]] + rest[0]] + rest[1..]
  }

  /** No piece of a split holds the separator. */
  lemma {:induction false} SplitPiecesFree(s: string, sep: char)
    ensures forall k :: 0 <= k < |Split(s, sep)| ==> sep !in Split(s, sep)[k]
    decreases |s|
  {
    if s != [] {
      SplitPiecesFree(s[1..], sep);
    }
  }

  /** Python's `sep.join(parts)`. */
  function Join(parts: seq<string>, sep: char): string
  {
    if |parts| == 0 then ""
    else if |parts| == 1 then parts[0]
    else parts[0] + [sep] + Join(parts[1..], sep)
  }

  /** A join of non-empty pieces starts with the first character of the
      first piece and ends with the last character of the last piece. */
  lemma {:induction false} JoinEnds(parts: seq<string>, sep: char)
    requires |parts| >= 1 && forall k :: 0 <= k < |parts| ==> parts[k] != []
    ensures var j := Join(parts, sep);
            var last := parts[|parts| - 1];
            && |j| > 0 && j[0] == parts[0][0] && j[|j| - 1] == last[|last| - 1]
    decreases |parts|
  {
    if |parts| > 1 {
      JoinEnds(parts[1..], sep);
      assert parts[1..][|parts| - 2] == parts[|parts| - 1];
    }
  }

  /** A join of trimmed pieces, followed by white space, strips to the
      join itself. */
  lemma StripJoined(parts: seq<string>, sep: char, tail: string)
    requires |parts| >= 1 && AllSpace(tail)
    requires forall k :: 0 <= k < |parts| ==> Trimmed(parts[k])
    ensures Strip(Join(parts, sep) + tail) == Join(parts, sep)
  {
    var j := Join(parts, sep);
    JoinEnds(parts, sep);
    assert Trimmed(parts[0]) && Trimmed(parts[|parts| - 1]);
    assert Trimmed(j);
    StripAround("", j, tail);
    assert "" + j + tail == j + tail;
  }

  /** A character that is neither the separator nor in any piece is not
      in the joined text. */
  lemma {:induction false} JoinFree(parts: seq<string>, sep: char, c: char)
    requires c != sep && forall k :: 0 <= k < |parts| ==> c !in parts[k]
    ensures c !in Join(parts, sep)
    decreases |parts|
  {
    if |parts| > 1 {
      JoinFree(parts[1..], sep, c);
    }
  }

  /** Splitting and joining again gives back the text. */
  lemma {:induction false} JoinSplit(s: string, sep: char)
    ensures Join(Split(s, sep), sep) == s
    decreases |s|
  {
    if s == [] {
    } else if s[0] == sep {
      JoinSplit(s[1..], sep);
      assert Split(s, sep) == [""] + Split(s[1..], sep);
    } else {
      JoinSplit(s[1..], sep);
      var rest := Split(s[1..], sep);
      if |rest| == 1 {
      } else {
        assert Join(rest, sep) == rest[0] + [sep] + Join(rest[1..], sep);
      }
    }
  }

  /** A piece free of the separator is cut off intact in front of the rest. */
  lemma {:induction false} SplitCons(a: string, b: string, sep: char)
    requires sep !in a
    ensures Split(a + [sep] + b, sep) == [a] + Split(b, sep)
    decreases |a|
  {
    if a == [] {
      assert (a + [sep] + b)[1..] == b;
    } else {
      SplitCons(a[1..], b, sep);
      assert (a + [sep] + b)[1..] == a[1..] + [sep] + b;
      assert [a[0]] + a[1..] == a;
    }
  }

  /** Splitting a joined list of separator-free pieces gives the pieces back. */
  lemma {:induction false} SplitJoin(parts: seq<string>, sep: char)
    requires |parts| >= 1
    requires forall k :: 0 <= k < |parts| ==> sep !in parts[k]
    ensures Split(Join(parts, sep), sep) == parts
    decreases |parts|
  {
    if |parts| == 1 {
      SplitNoSep(parts[0], sep);
    } else {
      SplitJoin(parts[1..], sep);
      SplitCons(parts[0], Join(parts[1..], sep), sep);
    }
  }

  /** A text without the separator is a single piece. */
  lemma {:induction false} SplitNoSep(s: string, sep: char)
    requires sep !in s
    ensures Split(s, sep) == [s]
    decreases |s|
  {
    if s != [] {
      SplitNoSep(s[1..], sep);
      assert [s[0]] + s[1..] == s;
    }
  }

  function Spaces(n: nat): (r: string)
    ensures |r| == n && forall k :: 0 <= k < n ==> r[k] == ' '
  {
    if n == 0 then "" else Spaces(n - 1) + " "
  }

  /** `text[:width] + " " * (width - len(text[:width]))`: the text cut or
      space-filled to exactly `width` characters. */
  function FitWidth(text: string, width: nat): (r: string)
    ensures |r| == width
    ensures forall k :: 0 <= k < width ==> r[k] == (if k < |text| then text[k] else ' ')
  {
    var cut := if |text| <= width then text else text[..width];
    cut + Spaces(width - |cut|)
  }
}
