/**
 * The few pieces of java.lang.String and java.util.regex behaviour that the
 * command dispatcher relies on: String.trim, the regex classes \S and `.`,
 * and lower-casing of a command word.
 */
module JavaText {

  /** String.trim strips every char whose code is at most U+0020. */
  predicate IsTrimmable(c: char) {
    c <= ' '
  }

  /** The regex class \s (without UNICODE_CHARACTER_CLASS): [ \t\n\x0B\f\r]. */
  predicate IsRegexSpace(c: char) {
    c == ' ' || c == '\t' || c == '\n' || c == '\U{000B}' || c == '\U{000C}' || c == '\r'
  }

  /** The chars the regex `.` does not match (no DOTALL, no UNIX_LINES). */
  predicate IsLineTerminator(c: char) {
    c == '\n' || c == '\r' || c == '\U{0085}' || c == '\U{2028}' || c == '\U{2029}'
  }

  predicate AllTrimmable(s: string) {
    forall i :: 0 <= i < |s| ==> IsTrimmable(s[i])
  }

  predicate NoLineTerminator(s: string) {
    forall i :: 0 <= i < |s| ==> !IsLineTerminator(s[i])
  }

  /** Every regex space is stripped by trim. */
  lemma RegexSpaceIsTrimmable(c: char)
    ensures IsRegexSpace(c) ==> IsTrimmable(c)
  {
  }

  /** How many trimmable chars s starts with. */
  function LeadingCount(s: string): (n: nat)
    ensures n <= |s|
    ensures AllTrimmable(s[..n])
    ensures n == |s| || !IsTrimmable(s[n])
  {
    if |s| > 0 && IsTrimmable(s[0]) then
      var n := 1 + LeadingCount(s[1..]);
      assert s[..n] == [s[0]] + s[1..][..n - 1];
      n
    else 0
  }

  /** Where the trailing run of trimmable chars of s begins. */
  function TrailingStart(s: string): (n: nat)
    ensures n <= |s|
    ensures AllTrimmable(s[n..])
    ensures n == 0 || !IsTrimmable(s[n - 1])
  {
    if |s| > 0 && IsTrimmable(s[|s| - 1]) then
      var n := TrailingStart(s[..|s| - 1]);
      assert s[n..] == s[..|s| - 1][n..] + [s[|s| - 1]];
      n
    else |s|
  }

  /** s without its leading trimmable chars. */
  function TrimStart(s: string): (r: string)
    ensures r == [] || !IsTrimmable(r[0])
  {
    s[LeadingCount(s)..]
  }

  /** s without its trailing trimmable chars. */
  function TrimEnd(s: string): (r: string)
    ensures r == [] || !IsTrimmable(r[|r| - 1])
  {
    s[..TrailingStart(s)]
  }

  /** String.trim: first the leading run, then the trailing run of what is left. */
  function Trim(s: string): (r: string)
    ensures r == [] || (!IsTrimmable(r[0]) && !IsTrimmable(r[|r| - 1]))
    ensures r == [] <==> AllTrimmable(s)
  {
    var t := TrimStart(s);
    assert t == [] ==> s[..LeadingCount(s)] == s;
    assert t != [] ==> t[0] == s[LeadingCount(s)];
    TrimEnd(t)
  }

  /** What Trim keeps is the infix after the leading padding, and what surrounds it is all trimmable. */
  lemma TrimIsInfix(s: string)
    ensures var i := LeadingCount(s);
            && i + |Trim(s)| <= |s|
            && Trim(s) == s[i..i + |Trim(s)|]
            && AllTrimmable(s[..i])
            && AllTrimmable(s[i + |Trim(s)|..])
  {
    var i := LeadingCount(s);
    var t := s[i..];
    var n := TrailingStart(t);
    assert Trim(s) == t[..n];
    assert t[n..] == s[i + n..];
  }

  /** Character.toLowerCase restricted to ASCII letters. */
  function LowerChar(c: char): (r: char)
    ensures 'A' <= c <= 'Z' ==> r as int == c as int + 32
    ensures !('A' <= c <= 'Z') ==> r == c
  {
    if 'A' <= c <= 'Z' then (c as int + 32) as char else c
  }

  /** String.toLowerCase, char by char, for ASCII letters. */
  function Lower(s: string): (r: string)
    ensures |r| == |s|
    ensures forall i :: 0 <= i < |s| ==> r[i] == LowerChar(s[i])
  {
    seq(|s|, i requires 0 <= i < |s| => LowerChar(s[i]))
  }

  /** Lower-casing is idempotent. */
  lemma LowerIdempotent(s: string)
    ensures Lower(Lower(s)) == Lower(s)
  {
  }

  // ---- trimming and padding ------------------------------------------------

  lemma {:induction false} LeadingCountOfPadding(ws: string, s: string)
    requires AllTrimmable(ws)
    ensures LeadingCount(ws + s) == |ws| + LeadingCount(s)
  {
    if ws != [] {
      assert (ws + s)[0] == ws[0] && IsTrimmable(ws[0]);
      assert (ws + s)[1..] == ws[1..] + s;
      assert AllTrimmable(ws[1..]) by {
        forall i | 0 <= i < |ws[1..]| ensures IsTrimmable(ws[1..][i]) {
          assert ws[1..][i] == ws[i + 1];
        }
      }
      LeadingCountOfPadding(ws[1..], s);
    } else {
      assert ws + s == s;
    }
  }

  lemma TrimStartSkipsPadding(ws: string, s: string)
    requires AllTrimmable(ws)
    ensures TrimStart(ws + s) == TrimStart(s)
  {
    LeadingCountOfPadding(ws, s);
    assert (ws + s)[|ws| + LeadingCount(s)..] == s[LeadingCount(s)..];
  }

  lemma {:induction false} TrailingStartOfPadding(s: string, ws: string)
    requires AllTrimmable(ws)
    ensures TrailingStart(s + ws) == TrailingStart(s)
  {
    if ws != [] {
      var n := |ws|;
      assert (s + ws)[|s + ws| - 1] == ws[n - 1] && IsTrimmable(ws[n - 1]);
      assert (s + ws)[..|s + ws| - 1] == s + ws[..n - 1];
      assert AllTrimmable(ws[..n - 1]) by {
        var w := ws[..n - 1];
        forall i | 0 <= i < |w| ensures IsTrimmable(w[i]) {
          assert w[i] == ws[i];
        }
      }
      TrailingStartOfPadding(s, ws[..n - 1]);
    } else {
      assert s + ws == s;
    }
  }

  lemma TrimEndSkipsPadding(s: string, ws: string)
    requires AllTrimmable(ws)
    ensures TrimEnd(s + ws) == TrimEnd(s)
  {
    TrailingStartOfPadding(s, ws);
    assert (s + ws)[..TrailingStart(s)] == s[..TrailingStart(s)];
  }

  /** Text appended after a non-trimmable char does not change the leading count. */
  lemma {:induction false} LeadingCountOfAppend(s: string, t: string)
    requires !AllTrimmable(s)
    ensures LeadingCount(s + t) == LeadingCount(s)
  {
    if IsTrimmable(s[0]) {
      assert (s + t)[1..] == s[1..] + t;
      assert !AllTrimmable(s[1..]) by {
        var j :| 0 <= j < |s| && !IsTrimmable(s[j]);
        assert s[1..][j - 1] == s[j];
      }
      LeadingCountOfAppend(s[1..], t);
    }
  }

  lemma TrimStartAppend(s: string, t: string)
    requires !AllTrimmable(s)
    ensures TrimStart(s + t) == TrimStart(s) + t
  {
    LeadingCountOfAppend(s, t);
    assert (s + t)[LeadingCount(s)..] == s[LeadingCount(s)..] + t;
  }

  /** Leading text before a non-trimmable char shifts the trailing run by its length. */
  lemma {:induction false} TrailingStartOfPrepend(s: string, t: string)
    requires !AllTrimmable(t)
    ensures TrailingStart(s + t) == |s| + TrailingStart(t)
  {
    if IsTrimmable(t[|t| - 1]) {
      assert (s + t)[..|s + t| - 1] == s + t[..|t| - 1];
      assert !AllTrimmable(t[..|t| - 1]) by {
        var j :| 0 <= j < |t| && !IsTrimmable(t[j]);
        assert t[..|t| - 1][j] == t[j];
      }
      TrailingStartOfPrepend(s, t[..|t| - 1]);
    }
  }

  lemma TrimEndPrepend(s: string, t: string)
    requires !AllTrimmable(t)
    ensures TrimEnd(s + t) == s + TrimEnd(t)
  {
    TrailingStartOfPrepend(s, t);
    assert (s + t)[..|s| + TrailingStart(t)] == s + t[..TrailingStart(t)];
  }

  /** Surrounding a string with trimmable chars does not change its trimmed form. */
  lemma TrimIgnoresPadding(ws1: string, s: string, ws2: string)
    requires AllTrimmable(ws1) && AllTrimmable(ws2)
    ensures Trim(ws1 + s + ws2) == Trim(s)
  {
    assert ws1 + s + ws2 == ws1 + (s + ws2);
    TrimStartSkipsPadding(ws1, s + ws2);
    if AllTrimmable(s) {
      assert AllTrimmable(s + ws2);
      assert TrimStart(s + ws2) == [];
    } else {
      TrimStartAppend(s, ws2);
      TrimEndSkipsPadding(TrimStart(s), ws2);
    }
  }

  /** Trimming twice is trimming once. */
  lemma TrimIdempotent(s: string)
    ensures Trim(Trim(s)) == Trim(s)
  {
  }
}
