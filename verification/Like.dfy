/**
 * SQLite's LIKE with `ESCAPE '\'`, the escaping of src/filter.rs, and why a `~` leaf is a
 * substring test. LIKE folds ASCII case only.
 */
module Like {
  function LowerChar(c: char): char {
    if 'A' <= c <= 'Z' then c - 'A' + 'a' else c
  }

  /** `to_ascii_lowercase`. */
  function Lower(s: string): (r: string)
    ensures |r| == |s| && forall k :: 0 <= k < |s| ==> r[k] == LowerChar(s[k])
  {
    seq(|s|, k requires 0 <= k < |s| => LowerChar(s[k]))
  }

  predicate OccursAt(hay: string, needle: string, i: int) {
    0 <= i <= |hay| - |needle| && hay[i..i + |needle|] == needle
  }

  /** `str::contains`. */
  predicate Contains(hay: string, needle: string) {
    exists i :: 0 <= i <= |hay| && OccursAt(hay, needle, i)
  }

  predicate IsMeta(c: char) {
    c == '%' || c == '_' || c == '\\'
  }

  function EscapeChar(c: char): string {
    if IsMeta(c) then ['\\', c] else [c]
  }

  function LikeEscape(s: string): string {
    if s == "" then "" else EscapeChar(s[0]) + LikeEscape(s[1..])
  }

  /** `like_escape`: a loop that pushes onto the output. */
  method EscapeLoop(s: string) returns (out: string)
    ensures out == LikeEscape(s)
  {
    out := "";
    for i := 0 to |s|
      invariant out + LikeEscape(s[i..]) == LikeEscape(s)
    {
      assert s[i..][1..] == s[i + 1..];
      assert (out + EscapeChar(s[i])) + LikeEscape(s[i + 1..]) == out + LikeEscape(s[i..]);
      if IsMeta(s[i]) {
        out := out + ['\\'];
      }
      out := out + [s[i]];
    }
  }

  function Pattern(needle: string): string {
    "%" + (LikeEscape(needle) + "%")
  }

  predicate SameFold(a: char, b: char) {
    LowerChar(a) == LowerChar(b)
  }

  /** The wildcard matcher: `%` any run of characters, `_` any one, `\` the next one literally. */
  predicate LikeMatch(p: string, s: string)
    decreases |p| + |s|
  {
    if p == "" then s == ""
    else if p[0] == '%' then LikeMatch(p[1..], s) || (s != "" && LikeMatch(p, s[1..]))
    else if p[0] == '\\' then |p| >= 2 && s != "" && SameFold(p[1], s[0]) && LikeMatch(p[2..], s[1..])
    else s != "" && (p[0] == '_' || SameFold(p[0], s[0])) && LikeMatch(p[1..], s[1..])
  }

  /** A trailing `%` matches every remainder. */
  lemma {:induction false} PercentMatches(s: string)
    ensures LikeMatch("%", s)
    decreases |s|
  {
    assert "%"[1..] == "";
    if s != "" {
      PercentMatches(s[1..]);
    }
  }

  /** Escaped text followed by `%` matches exactly the strings that start with it, up to case. */
  lemma {:induction false} EscapedPrefix(needle: string, s: string)
    ensures LikeMatch(LikeEscape(needle) + "%", s) <==>
            |needle| <= |s| && forall k :: 0 <= k < |needle| ==> SameFold(needle[k], s[k])
  {
    var p := LikeEscape(needle) + "%";
    if needle == "" {
      assert p == "%";
      PercentMatches(s);
    } else {
      var rest := LikeEscape(needle[1..]) + "%";
      var m := if IsMeta(needle[0]) then 2 else 1;
      assert p[m - 1] == needle[0] && p[m..] == rest;
      if s != "" {
        EscapedPrefix(needle[1..], s[1..]);
        assert forall k :: 0 < k < |needle| ==> needle[k] == needle[1..][k - 1];
        assert forall k :: 0 < k < |s| ==> s[k] == s[1..][k - 1];
      }
    }
  }

  /** A leading `%` tries every suffix. */
  lemma {:induction false} PercentSearches(p: string, s: string)
    ensures LikeMatch("%" + p, s) <==> exists i :: 0 <= i <= |s| && LikeMatch(p, s[i..])
    decreases |s|
  {
    var q := "%" + p;
    assert q[1..] == p && s[0..] == s;
    if s != "" {
      var t := s[1..];
      PercentSearches(p, t);
      if LikeMatch(q, t) {
        var i :| 0 <= i <= |t| && LikeMatch(p, t[i..]);
        assert s[i + 1..] == t[i..];
      }
      if exists i :: 1 <= i <= |s| && LikeMatch(p, s[i..]) {
        var i :| 1 <= i <= |s| && LikeMatch(p, s[i..]);
        assert t[i - 1..] == s[i..];
      }
    }
  }

  lemma FoldedAt(needle: string, s: string, i: nat)
    requires i + |needle| <= |s|
    ensures Lower(s)[i..i + |needle|] == Lower(needle) <==>
            forall k :: 0 <= k < |needle| ==> SameFold(needle[k], s[i..][k])
  {
    var piece := Lower(s)[i..i + |needle|];
    assert forall k :: 0 <= k < |needle| ==> piece[k] == LowerChar(s[i + k]) && s[i..][k] == s[i + k];
  }

  /** LIKE on `%` + escaped needle + `%` holds exactly when the lower-cased haystack contains the
      lower-cased needle: `%`, `_` and `\` in the needle are ordinary characters. */
  lemma LikeIsContains(needle: string, hay: string)
    ensures LikeMatch(Pattern(needle), hay) <==> Contains(Lower(hay), Lower(needle))
  {
    hide LikeMatch, LikeEscape, Lower;
    var p, h, n := LikeEscape(needle) + "%", Lower(hay), Lower(needle);
    PercentSearches(p, hay);
    forall i | 0 <= i <= |hay|
      ensures LikeMatch(p, hay[i..]) <==> OccursAt(h, n, i)
    {
      EscapedPrefix(needle, hay[i..]);
      if i + |needle| <= |hay| {
        FoldedAt(needle, hay, i);
      }
    }
  }
}
