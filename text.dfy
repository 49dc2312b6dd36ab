/**
 * The Kotlin string functions the application relies on, over `seq<char>`:
 * `isBlank`, `trim`, `split(" ", limit = 2)`, `substringBeforeLast` and `replace`.
 */
module Text {
  import opened Wrappers

  /** Kotlin's `Char.isWhitespace` on the JVM: `Character.isWhitespace` or `Character.isSpaceChar`. */
  predicate IsWhitespace(c: char) {
    var n := c as int;
    (0x09 <= n <= 0x0D) || (0x1C <= n <= 0x20) || n == 0xA0 || n == 0x1680
    || (0x2000 <= n <= 0x200A) || n == 0x2028 || n == 0x2029 || n == 0x202F
    || n == 0x205F || n == 0x3000
  }

  /** Kotlin's `isBlank`: empty, or whitespace only. */
  predicate IsBlank(s: string) {
    forall i :: 0 <= i < |s| ==> IsWhitespace(s[i])
  }

  function TrimStart(s: string): (r: string)
    ensures |r| <= |s| && r == s[|s| - |r|..]
    ensures IsBlank(s[..|s| - |r|])
    ensures r == [] || !IsWhitespace(r[0])
  {
    if |s| > 0 && IsWhitespace(s[0]) then TrimStart(s[1..]) else s
  }

  function TrimEnd(s: string): (r: string)
    ensures |r| <= |s| && r == s[..|r|]
    ensures IsBlank(s[|r|..])
    ensures r == [] || !IsWhitespace(r[|r| - 1])
  {
    if |s| > 0 && IsWhitespace(s[|s| - 1]) then TrimEnd(s[..|s| - 1]) else s
  }

  /** Kotlin's `trim()`: leading and trailing whitespace removed. */
  function Trim(s: string): (r: string)
    ensures |r| <= |s|
    ensures exists i :: TrimmedAt(s, i, r)
    ensures r == [] || (!IsWhitespace(r[0]) && !IsWhitespace(r[|r| - 1]))
    ensures !IsBlank(s) <==> r != []
  {
    var t := TrimEnd(s);
    assert t == [] ==> IsBlank(s) by {
      if t == [] { BlankWhenTrimmedAway(s); }
    }
    assert t != [] ==> TrimStart(t) != [] by {
      if t != [] { TrimStartKeepsNonBlank(t); }
    }
    TrimSlice(s);
    TrimStart(t)
  }

  /** `r` sits at offset `i` of `s`, with whitespace only before and after it. */
  predicate TrimmedAt(s: string, i: nat, r: string) {
    i + |r| <= |s| && r == s[i..i + |r|] && IsBlank(s[..i]) && IsBlank(s[i + |r|..])
  }

  /** `trimStart(trimEnd(s))` is a slice of `s` with whitespace only on either side of it. */
  lemma TrimSlice(s: string)
    ensures TrimmedAt(s, |TrimEnd(s)| - |TrimStart(TrimEnd(s))|, TrimStart(TrimEnd(s)))
  {
    var t := TrimEnd(s);
    var r := TrimStart(t);
    var i := |t| - |r|;
    assert s[..i] == t[..i];
    assert r == t[i..] && t == s[..|t|];
  }

  /** `trimStart` never empties a string that holds something other than whitespace. */
  lemma {:induction false} TrimStartKeepsNonBlank(s: string)
    requires !IsBlank(s)
    ensures TrimStart(s) != []
    decreases |s|
  {
    if IsWhitespace(s[0]) {
      assert !IsBlank(s[1..]) by {
        var i :| 0 <= i < |s| && !IsWhitespace(s[i]);
        assert s[1..][i - 1] == s[i];
      }
      TrimStartKeepsNonBlank(s[1..]);
    }
  }

  /** `trimEnd` only empties a string made of whitespace. */
  lemma {:induction false} BlankWhenTrimmedAway(s: string)
    requires TrimEnd(s) == []
    ensures IsBlank(s)
    decreases |s|
  {
    if |s| > 0 {
      BlankWhenTrimmedAway(s[..|s| - 1]);
      assert forall i :: 0 <= i < |s| - 1 ==> s[i] == s[..|s| - 1][i];
    }
  }

  /** A trailing whitespace character never survives `trim()`. */
  lemma TrimDropsTrailingWhitespace(s: string, c: char)
    requires IsWhitespace(c)
    ensures Trim(s + [c]) == Trim(s)
  {
    assert (s + [c])[..|s|] == s;
  }

  /** Index of the first occurrence of `c` in `s`. */
  function IndexOf(s: string, c: char): (r: Option<nat>)
    ensures r.Some? ==> r.value < |s| && s[r.value] == c && forall j :: 0 <= j < r.value ==> s[j] != c
    ensures r.None? ==> forall j :: 0 <= j < |s| ==> s[j] != c
  {
    if |s| == 0 then None
    else if s[0] == c then Some(0)
    else match IndexOf(s[1..], c)
      case None => None
      case Some(i) => Some(i + 1)
  }

  /** Index of the last occurrence of `c` in `s`. */
  function LastIndexOf(s: string, c: char): (r: Option<nat>)
    ensures r.Some? ==> r.value < |s| && s[r.value] == c && forall j :: r.value < j < |s| ==> s[j] != c
    ensures r.None? ==> forall j :: 0 <= j < |s| ==> s[j] != c
  {
    if |s| == 0 then None
    else if s[|s| - 1] == c then Some(|s| - 1)
    else LastIndexOf(s[..|s| - 1], c)
  }

  /** Kotlin's `split(" ", limit = 2)` read back as `(getOrNull(0) ?: "", getOrNull(1) ?: "")`. */
  function SplitAtFirstSpace(s: string): (r: (string, string))
    ensures ' ' !in r.0
    ensures ' ' in s ==> r.0 + " " + r.1 == s
    ensures ' ' !in s ==> r.0 == s && r.1 == ""
  {
    match IndexOf(s, ' ')
    case None => (s, "")
    case Some(i) =>
      assert s[..i] + " " + s[i + 1..] == s[..i] + s[i..];
      (s[..i], s[i + 1..])
  }

  /** Kotlin's `substringBeforeLast(delimiter)`: everything before the last delimiter, the string itself if there is none. */
  function SubstringBeforeLast(s: string, delimiter: char): (r: string)
    ensures |r| <= |s| && r == s[..|r|]
    ensures delimiter in s ==> |r| < |s| && s[|r|] == delimiter
  {
    match LastIndexOf(s, delimiter)
    case None => s
    case Some(i) => s[..i]
  }

  /** The result and the removed suffix put back together give the input, and the removed suffix holds no further delimiter. */
  lemma SubstringBeforeLastSplits(s: string, delimiter: char)
    ensures delimiter !in s ==> SubstringBeforeLast(s, delimiter) == s
    ensures delimiter in s ==>
      exists rest :: delimiter !in rest && s == SubstringBeforeLast(s, delimiter) + [delimiter] + rest
  {
    match LastIndexOf(s, delimiter)
    case None =>
    case Some(i) =>
      var rest := s[i + 1..];
      assert s == s[..i] + [delimiter] + rest;
      assert delimiter !in rest by {
        forall j | 0 <= j < |rest| ensures rest[j] != delimiter {
          assert rest[j] == s[i + 1 + j];
        }
      }
  }

  /** True when `p` occurs in `s` starting at index `i`. */
  predicate OccursAt(s: string, i: nat, p: string) {
    i + |p| <= |s| && s[i..i + |p|] == p
  }

  predicate Occurs(s: string, p: string) {
    exists i: nat | i <= |s| :: OccursAt(s, i, p)
  }

  /** Kotlin's `replace(oldValue, newValue)`: every non-overlapping occurrence, scanned left to right. */
  function ReplaceAll(s: string, pat: string, rep: string): (r: string)
    requires |pat| > 0
    ensures |rep| >= |pat| ==> |r| >= |s|
    ensures |s| < |pat| ==> r == s
    decreases |s|
  {
    if |s| < |pat| then s
    else if s[..|pat|] == pat then rep + ReplaceAll(s[|pat|..], pat, rep)
    else [s[0]] + ReplaceAll(s[1..], pat, rep)
  }

  /** A string in which the pattern does not occur is left unchanged. */
  lemma {:induction false} ReplaceAllWithoutOccurrence(s: string, pat: string, rep: string)
    requires |pat| > 0 && !Occurs(s, pat)
    ensures ReplaceAll(s, pat, rep) == s
    decreases |s|
  {
    if |s| >= |pat| {
      assert !OccursAt(s, 0, pat);
      assert !Occurs(s[1..], pat) by {
        forall i: nat | OccursAt(s[1..], i, pat) ensures false {
          assert s[1..][i..i + |pat|] == s[i + 1..i + 1 + |pat|];
          assert OccursAt(s, i + 1, pat);
        }
      }
      ReplaceAllWithoutOccurrence(s[1..], pat, rep);
    }
  }

  /**
   * If the replaced string starts with a word that avoids the first character of the
   * replacement, that word was already at the start of the original.
   */
  lemma {:induction false} ReplaceAllKeepsPrefix(s: string, pat: string, rep: string, w: string)
    requires |pat| > 0 && |rep| > 0 && rep[0] == pat[0]
    requires forall j :: 0 <= j < |w| ==> w[j] != pat[0]
    requires |w| <= |ReplaceAll(s, pat, rep)| && ReplaceAll(s, pat, rep)[..|w|] == w
    ensures |w| <= |s| && s[..|w|] == w
    decreases |s|
  {
    if |w| > 0 && |s| >= |pat| {
      var r := ReplaceAll(s, pat, rep);
      assert r[0] == w[0] && r[0] != rep[0];
      var tail := ReplaceAll(s[1..], pat, rep);
      assert r == [s[0]] + tail;
      assert tail[..|w| - 1] == w[1..];
      ReplaceAllKeepsPrefix(s[1..], pat, rep, w[1..]);
      assert s[..|w|] == [s[0]] + s[1..][..|w| - 1];
    }
  }

  /** An occurrence after a prefix is an occurrence in the suffix. */
  lemma OccursAtAfterPrefix(a: string, b: string, i: nat, p: string)
    requires |a| <= i
    ensures OccursAt(a + b, i, p) <==> OccursAt(b, i - |a|, p)
  {
    if i + |p| <= |a + b| {
      assert (a + b)[i..i + |p|] == b[i - |a|..i - |a| + |p|];
    }
  }

  /** After replacing `http://` by `https://`, no `http://` remains anywhere. */
  lemma {:induction false} NoInsecureSchemeLeft(s: string)
    ensures !Occurs(ReplaceAll(s, "http://", "https://"), "http://")
    decreases |s|
  {
    var pat, rep := "http://", "https://";
    var r := ReplaceAll(s, pat, rep);
    if |s| < |pat| {
      forall i: nat ensures !OccursAt(r, i, pat) {}
    } else if s[..|pat|] == pat {
      var tail := ReplaceAll(s[|pat|..], pat, rep);
      assert r == rep + tail;
      NoInsecureSchemeLeft(s[|pat|..]);
      forall i: nat ensures !OccursAt(r, i, pat) {
        if i < |rep| {
          if i + |pat| <= |r| {
            var m := r[i..i + |pat|];
            if i == 0 { assert m[4] == rep[4]; } else { assert m[0] == rep[i]; }
          }
        } else {
          OccursAtAfterPrefix(rep, tail, i, pat);
        }
      }
    } else {
      var tail := ReplaceAll(s[1..], pat, rep);
      assert r == [s[0]] + tail;
      NoInsecureSchemeLeft(s[1..]);
      forall i: nat ensures !OccursAt(r, i, pat) {
        if i == 0 {
          if OccursAt(r, 0, pat) {
            assert r[..7] == pat;
            assert r[1..7] == tail[..6];
            assert tail[..6] == "ttp://";
            assert s[..|pat|] == [s[0]] + s[1..][..6];
            ReplaceAllKeepsPrefix(s[1..], pat, rep, "ttp://");
            assert false;
          }
        } else {
          OccursAtAfterPrefix([s[0]], tail, i, pat);
        }
      }
    }
  }
}
