/**
 * The Python string operations the leave-file loop applies to a line:
 * `strip()`, `in`, `replace`, `split` and `join`.
 */
module Text {

  /** The characters for which Python's `str.isspace()` holds. */
  predicate IsSpace(c: char) {
    c == ' ' || ('\t' <= c <= '\r') || ('\U{1C}' <= c <= '\U{1F}')
    || c == '\U{85}' || c == '\U{A0}' || c == '\U{1680}'
    || ('\U{2000}' <= c <= '\U{200A}') || c == '\U{2028}' || c == '\U{2029}'
    || c == '\U{202F}' || c == '\U{205F}' || c == '\U{3000}'
  }

  /** `s.lstrip()`: the suffix left after the leading whitespace. */
  function TrimStart(s: string): (r: string)
    ensures |r| <= |s| && r == s[|s| - |r|..]
    ensures r == [] || !IsSpace(r[0])
  {
    if |s| > 0 && IsSpace(s[0]) then TrimStart(s[1..]) else s
  }

  /** `s.rstrip()`: the prefix left before the trailing whitespace. */
  function TrimEnd(s: string): (r: string)
    ensures |r| <= |s| && r == s[..|r|]
    ensures r == [] || !IsSpace(r[|r| - 1])
  {
    if |s| > 0 && IsSpace(s[|s| - 1]) then TrimEnd(s[..|s| - 1]) else s
  }

  /** What `lstrip` removes is whitespace. */
  lemma {:induction false} TrimStartRemovesSpace(s: string)
    ensures forall k :: 0 <= k < |s| - |TrimStart(s)| ==> IsSpace(s[k])
  {
    if |s| > 0 && IsSpace(s[0]) {
      TrimStartRemovesSpace(s[1..]);
    }
  }

  /** What `rstrip` removes is whitespace. */
  lemma {:induction false} TrimEndRemovesSpace(s: string)
    ensures forall k :: |TrimEnd(s)| <= k < |s| ==> IsSpace(s[k])
  {
    if |s| > 0 && IsSpace(s[|s| - 1]) {
      TrimEndRemovesSpace(s[..|s| - 1]);
    }
  }

  /** `s.strip()`. */
  function Strip(s: string): string {
    TrimEnd(TrimStart(s))
  }

  /** A line without surrounding whitespace is its own stripped form. */
  lemma StripUnchanged(s: string)
    requires s == [] || (!IsSpace(s[0]) && !IsSpace(s[|s| - 1]))
    ensures Strip(s) == s
  {
  }

  /** Stripping leaves nothing exactly when the line is all whitespace. */
  lemma StripEmpty(s: string)
    ensures Strip(s) == [] <==> forall k :: 0 <= k < |s| ==> IsSpace(s[k])
  {
    var t := TrimStart(s);
    TrimStartRemovesSpace(s);
    TrimEndRemovesSpace(t);
  }

  predicate IsPrefix(p: string, s: string) {
    |p| <= |s| && s[..|p|] == p
  }

  /** `pat in s`. */
  predicate Contains(s: string, pat: string)
    decreases |s|
  {
    IsPrefix(pat, s) || (|s| > 0 && Contains(s[1..], pat))
  }

  /** Python's `sep.join(parts)`. */
  function Join(sep: string, parts: seq<string>): string
  {
    if |parts| == 0 then []
    else if |parts| == 1 then parts[0]
    else parts[0] + sep + Join(sep, parts[1..])
  }

  /** `s.split(sep)`, scanning left to right with `cur` holding the part being read. */
  function SplitFrom(s: string, sep: string, cur: string): (r: seq<string>)
    requires |sep| > 0
    ensures |r| >= 1
    decreases |s|
  {
    if |s| == 0 then [cur]
    else if IsPrefix(sep, s) then [cur] + SplitFrom(s[|sep|..], sep, [])
    else SplitFrom(s[1..], sep, cur + [s[0]])
  }

  /** `s.split(sep)`. */
  function Split(s: string, sep: string): seq<string>
    requires |sep| > 0
  {
    SplitFrom(s, sep, [])
  }

  /** `s.replace(pat, rep)`: every occurrence, leftmost first, none overlapping. */
  function Replace(s: string, pat: string, rep: string): string
    requires |pat| > 0
    decreases |s|
  {
    if |s| == 0 then []
    else if IsPrefix(pat, s) then rep + Replace(s[|pat|..], pat, rep)
    else [s[0]] + Replace(s[1..], pat, rep)
  }

  /** The character `c` does not occur in `s`. */
  predicate Avoids(s: string, c: char) {
    forall k :: 0 <= k < |s| ==> s[k] != c
  }

  /** No whitespace at all. */
  predicate NoSpaces(s: string) {
    forall k :: 0 <= k < |s| ==> !IsSpace(s[k])
  }

  /** Joining text without whitespace gives text without whitespace. */
  lemma {:induction false} JoinNoSpaces(sep: string, parts: seq<string>)
    requires NoSpaces(sep) && forall i :: 0 <= i < |parts| ==> NoSpaces(parts[i])
    ensures NoSpaces(Join(sep, parts))
    decreases |parts|
  {
    if |parts| > 1 {
      JoinNoSpaces(sep, parts[1..]);
    }
  }

  /** A join starts with its first part and ends with its last. */
  lemma JoinEnds(sep: string, parts: seq<string>)
    requires |parts| >= 1 && |parts[0]| > 0 && |parts[|parts| - 1]| > 0
    ensures |Join(sep, parts)| > 0
    ensures Join(sep, parts)[0] == parts[0][0]
    ensures Join(sep, parts)[|Join(sep, parts)| - 1] == parts[|parts| - 1][|parts[|parts| - 1]| - 1]
  {
    JoinLast(sep, parts);
  }

  lemma {:induction false} JoinLast(sep: string, parts: seq<string>)
    requires |parts| >= 1 && |parts[|parts| - 1]| > 0
    ensures |Join(sep, parts)| >= |parts[|parts| - 1]|
    ensures Join(sep, parts)[|Join(sep, parts)| - 1] == parts[|parts| - 1][|parts[|parts| - 1]| - 1]
    decreases |parts|
  {
    if |parts| > 1 {
      JoinLast(sep, parts[1..]);
    }
  }

  // ---------------------------------------------------------------------
  // Split and join undo each other

  lemma {:induction false} JoinSplitFrom(s: string, sep: string, cur: string)
    requires |sep| > 0
    ensures Join(sep, SplitFrom(s, sep, cur)) == cur + s
    decreases |s|
  {
    if |s| == 0 {
    } else if IsPrefix(sep, s) {
      JoinSplitFrom(s[|sep|..], sep, []);
      assert s == sep + s[|sep|..];
    } else {
      JoinSplitFrom(s[1..], sep, cur + [s[0]]);
      assert (cur + [s[0]]) + s[1..] == cur + s;
    }
  }

  /** Joining the parts of a split gives back the line. */
  lemma JoinSplit(s: string, sep: string)
    requires |sep| > 0
    ensures Join(sep, Split(s, sep)) == s
  {
    JoinSplitFrom(s, sep, []);
  }

  lemma {:induction false} SplitFromCount(s: string, sep: string, cur: string)
    requires |sep| > 0
    ensures |SplitFrom(s, sep, cur)| >= 2 <==> Contains(s, sep)
    decreases |s|
  {
    if |s| == 0 {
    } else if IsPrefix(sep, s) {
    } else {
      SplitFromCount(s[1..], sep, cur + [s[0]]);
    }
  }

  /** A split yields more than one part exactly when the separator occurs. */
  lemma SplitCount(s: string, sep: string)
    requires |sep| > 0
    ensures |Split(s, sep)| >= 2 <==> Contains(s, sep)
  {
    SplitFromCount(s, sep, []);
  }

  /** Characters that cannot start the separator are read into the current part. */
  lemma {:induction false} SplitFromSkip(p: string, t: string, sep: string, cur: string)
    requires |sep| > 0 && Avoids(p, sep[0])
    ensures SplitFrom(p + t, sep, cur) == SplitFrom(t, sep, cur + p)
    decreases |p|
  {
    if |p| > 0 {
      assert (p + t)[0] == p[0];
      assert (p + t)[1..] == p[1..] + t;
      SplitFromSkip(p[1..], t, sep, cur + [p[0]]);
      assert cur + [p[0]] + p[1..] == cur + p;
    } else {
      assert p + t == t && cur + p == cur;
    }
  }

  /** Splitting joined parts gives back the parts, when none holds the separator's first character. */
  lemma {:induction false} SplitJoin(parts: seq<string>, sep: string)
    requires |sep| > 0 && |parts| >= 1
    requires forall i :: 0 <= i < |parts| ==> Avoids(parts[i], sep[0])
    ensures Split(Join(sep, parts), sep) == parts
    decreases |parts|
  {
    if |parts| == 1 {
      SplitFromSkip(parts[0], [], sep, []);
      assert parts[0] + [] == parts[0] && [] + parts[0] == parts[0];
    } else {
      var rest := Join(sep, parts[1..]);
      assert Join(sep, parts) == parts[0] + (sep + rest);
      SplitFromSkip(parts[0], sep + rest, sep, []);
      assert IsPrefix(sep, sep + rest);
      assert (sep + rest)[|sep|..] == rest;
      assert [] + parts[0] == parts[0] && |sep + rest| > 0;
      SplitJoin(parts[1..], sep);
      assert parts == [parts[0]] + parts[1..];
    }
  }

  // ---------------------------------------------------------------------
  // Occurrences and replacement

  lemma {:induction false} AvoidsNotContains(s: string, pat: string)
    requires |pat| > 0 && Avoids(s, pat[0])
    ensures !Contains(s, pat)
    decreases |s|
  {
    if |s| > 0 {
      AvoidsNotContains(s[1..], pat);
    }
  }

  lemma {:induction false} ContainsAfter(p: string, t: string, pat: string)
    requires IsPrefix(pat, t)
    ensures Contains(p + t, pat)
    decreases |p|
  {
    if |p| > 0 {
      assert (p + t)[1..] == p[1..] + t;
      ContainsAfter(p[1..], t, pat);
    } else {
      assert p + t == t;
    }
  }

  /** Joining two or more parts puts the separator in the result. */
  lemma JoinContains(sep: string, parts: seq<string>)
    requires |parts| >= 2
    ensures Contains(Join(sep, parts), sep)
  {
    var rest := Join(sep, parts[1..]);
    assert Join(sep, parts) == parts[0] + (sep + rest);
    assert (sep + rest)[..|sep|] == sep;
    ContainsAfter(parts[0], sep + rest, sep);
  }

  /** Replacing a pattern that does not occur changes nothing. */
  lemma {:induction false} ReplaceAbsent(s: string, pat: string, rep: string)
    requires |pat| > 0 && !Contains(s, pat)
    ensures Replace(s, pat, rep) == s
    decreases |s|
  {
    if |s| > 0 {
      ReplaceAbsent(s[1..], pat, rep);
    }
  }

  lemma {:induction false} ReplaceSkip(p: string, t: string, pat: string, rep: string)
    requires |pat| > 0 && Avoids(p, pat[0])
    ensures Replace(p + t, pat, rep) == p + Replace(t, pat, rep)
    decreases |p|
  {
    if |p| > 0 {
      assert (p + t)[1..] == p[1..] + t;
      ReplaceSkip(p[1..], t, pat, rep);
    } else {
      assert p + t == t;
    }
  }

  /** Replacing the separator of joined parts joins them with the replacement instead. */
  lemma {:induction false} ReplaceJoin(parts: seq<string>, pat: string, rep: string)
    requires |pat| > 0
    requires forall i :: 0 <= i < |parts| ==> Avoids(parts[i], pat[0])
    ensures Replace(Join(pat, parts), pat, rep) == Join(rep, parts)
    decreases |parts|
  {
    if |parts| == 1 {
      ReplaceSkip(parts[0], [], pat, rep);
      assert parts[0] + [] == parts[0];
    } else if |parts| > 1 {
      var rest := Join(pat, parts[1..]);
      assert Join(pat, parts) == parts[0] + (pat + rest);
      ReplaceSkip(parts[0], pat + rest, pat, rep);
      assert IsPrefix(pat, pat + rest);
      assert (pat + rest)[|pat|..] == rest;
      ReplaceJoin(parts[1..], pat, rep);
    }
  }

  /** The separator ` to ` holds no ` - `, whatever follows it, unless what follows starts with a dash. */
  lemma ReplaceAcrossTo(t: string, rep: string)
    requires |t| > 0 && t[0] != '-'
    ensures Replace(" to " + t, " - ", rep) == " to " + Replace(t, " - ", rep)
  {
    var s0 := " to " + t;
    var s1 := "to " + t;
    var s2 := "o " + t;
    var s3 := " " + t;
    assert s0[1..] == s1 && s1[1..] == s2 && s2[1..] == s3 && s3[1..] == t;
    assert s0[1] == 't' && s1[0] == 't' && s2[0] == 'o';
    assert !IsPrefix(" - ", s0) && !IsPrefix(" - ", s1) && !IsPrefix(" - ", s2);
    assert !IsPrefix(" - ", s3) by {
      if |s3| >= 3 {
        assert s3[1] == t[0];
      }
    }
    assert Replace(s3, " - ", rep) == " " + Replace(t, " - ", rep);
    assert Replace(s2, " - ", rep) == "o" + Replace(s3, " - ", rep);
    assert Replace(s1, " - ", rep) == "t" + Replace(s2, " - ", rep);
    assert Replace(s0, " - ", rep) == " " + Replace(s1, " - ", rep);
  }

  /** Joining with ` to ` parts that hold no space introduces no ` - `. */
  lemma {:induction false} ReplaceJoinTo(parts: seq<string>, rep: string)
    requires |parts| >= 1
    requires forall i :: 0 <= i < |parts| ==> Avoids(parts[i], ' ')
    requires forall i :: 1 <= i < |parts| ==> |parts[i]| > 0 && parts[i][0] != '-'
    ensures Replace(Join(" to ", parts), " - ", rep) == Join(" to ", parts)
    decreases |parts|
  {
    if |parts| == 1 {
      ReplaceSkip(parts[0], [], " - ", rep);
      assert parts[0] + [] == parts[0];
    } else {
      var rest := Join(" to ", parts[1..]);
      assert Join(" to ", parts) == parts[0] + (" to " + rest);
      ReplaceSkip(parts[0], " to " + rest, " - ", rep);
      if |parts| > 2 {
        assert rest == parts[1] + " to " + Join(" to ", parts[2..]);
      }
      assert rest[0] == parts[1][0];
      ReplaceAcrossTo(rest, rep);
      ReplaceJoinTo(parts[1..], rep);
    }
  }
}
