/**
 * The small part of Rust's `str`/`String` API that the editor's text model
 * relies on, over `seq<char>`.  Text is assumed to be ASCII, so a byte offset
 * and a character index coincide.
 */
module Strings {

  datatype Option<+T> = None | Some(value: T)

  /** Rust's `char::is_whitespace`: the Unicode White_Space property. */
  predicate IsWhitespace(c: char) {
    var n := c as int;
    (9 <= n <= 13) || n == 32 || n == 0x85 || n == 0xA0 || n == 0x1680 ||
    (0x2000 <= n <= 0x200A) || n == 0x2028 || n == 0x2029 || n == 0x202F ||
    n == 0x205F || n == 0x3000
  }

  /** `s.trim().is_empty()`: every character is whitespace. */
  predicate IsBlank(s: string) {
    forall i :: 0 <= i < |s| ==> IsWhitespace(s[i])
  }

  /** Two blank texts joined are blank. */
  lemma BlankAppend(a: string, b: string)
    requires IsBlank(a) && IsBlank(b)
    ensures IsBlank(a + b)
  {
    forall i | 0 <= i < |a + b| ensures IsWhitespace((a + b)[i]) {
      if i < |a| {
        assert (a + b)[i] == a[i];
      } else {
        assert (a + b)[i] == b[i - |a|];
      }
    }
  }

  /** `s.starts_with(p)` */
  predicate StartsWith(s: string, p: string) {
    |p| <= |s| && s[..|p|] == p
  }

  /** `p` occurs in `s` at byte offset `i`. */
  predicate OccursAt(s: string, p: string, i: nat) {
    i + |p| <= |s| && s[i..i + |p|] == p
  }

  lemma OccursAtTail(s: string, p: string, i: nat)
    requires |s| > 0
    ensures OccursAt(s[1..], p, i) <==> OccursAt(s, p, i + 1)
  {
    if i + |p| <= |s[1..]| {
      assert s[1..][i..i + |p|] == s[i + 1..i + 1 + |p|];
    }
  }

  /** `s.find(p)`: the byte offset of the first occurrence of `p`, if any. */
  function Find(s: string, p: string): (r: Option<nat>)
    decreases |s|
    ensures r.Some? ==> OccursAt(s, p, r.value)
    ensures r.Some? ==> forall j :: 0 <= j < r.value ==> !OccursAt(s, p, j)
    ensures r.None? ==> forall j :: 0 <= j <= |s| ==> !OccursAt(s, p, j)
  {
    if StartsWith(s, p) then Some(0)
    else if |s| == 0 then None
    else
      var rest := Find(s[1..], p);
      assert forall j: nat :: OccursAt(s[1..], p, j) <==> OccursAt(s, p, j + 1) by {
        forall j: nat ensures OccursAt(s[1..], p, j) <==> OccursAt(s, p, j + 1) {
          OccursAtTail(s, p, j);
        }
      }
      assert !OccursAt(s, p, 0);
      match rest
      case None =>
        assert forall j :: 1 <= j <= |s| ==> !OccursAt(s, p, j) by {
          forall j | 1 <= j <= |s| ensures !OccursAt(s, p, j) {
            assert !OccursAt(s[1..], p, j - 1);
          }
        }
        None
      case Some(k) =>
        assert forall j :: 1 <= j < k + 1 ==> !OccursAt(s, p, j) by {
          forall j | 1 <= j < k + 1 ensures !OccursAt(s, p, j) {
            assert !OccursAt(s[1..], p, j - 1);
          }
        }
        Some(k + 1)
  }

  /** An occurrence with none before it is the one `Find` returns. */
  lemma FindFirst(s: string, p: string, k: nat)
    requires OccursAt(s, p, k)
    requires forall j :: 0 <= j < k ==> !OccursAt(s, p, j)
    ensures Find(s, p) == Some(k)
  {
    match Find(s, p)
    case None =>
      assert false;
    case Some(f) =>
      if f != k {
        assert false;
      }
  }

  /** `s.chars().take_while(|c| c.is_whitespace()).count()` */
  function LeadingWhitespace(s: string): (n: nat)
    ensures n <= |s|
    ensures forall i :: 0 <= i < n ==> IsWhitespace(s[i])
    ensures n < |s| ==> !IsWhitespace(s[n])
  {
    if |s| == 0 || !IsWhitespace(s[0]) then 0
    else 1 + LeadingWhitespace(s[1..])
  }

  /** The number of whitespace characters at the end of `s`. */
  function TrailingWhitespace(s: string): (n: nat)
    ensures n <= |s|
    ensures forall i :: |s| - n <= i < |s| ==> IsWhitespace(s[i])
    ensures n < |s| ==> !IsWhitespace(s[|s| - 1 - n])
  {
    if |s| == 0 || !IsWhitespace(s[|s| - 1]) then 0
    else 1 + TrailingWhitespace(s[..|s| - 1])
  }

  /** The trailing whitespace of a text is blank. */
  lemma TrailingBlank(u: string)
    ensures IsBlank(u[|u| - TrailingWhitespace(u)..])
  {
    var b := TrailingWhitespace(u);
    var tail := u[|u| - b..];
    forall i | 0 <= i < |tail| ensures IsWhitespace(tail[i]) {
      assert tail[i] == u[|u| - b + i];
    }
  }

  /** `s.trim_start()` */
  function TrimStart(s: string): string {
    s[LeadingWhitespace(s)..]
  }

  /** `trim_start` leaves a suffix that starts on non-whitespace, and what it removes is whitespace only. */
  lemma TrimStartSurround(s: string)
    ensures var r := TrimStart(s);
      |r| <= |s| && s == s[..|s| - |r|] + r && IsBlank(s[..|s| - |r|]) &&
      (r != [] ==> !IsWhitespace(r[0]))
  {
    LeadingBlank(s);
  }

  /**
   * `s.trim()`: the slice left between the leading and the trailing whitespace.
   * It is empty exactly when `s` is blank; otherwise it starts and ends on a
   * non-whitespace character. `TrimSurround` shows that only whitespace
   * surrounds it.
   */
  function Trim(s: string): (t: string)
    ensures IsBlank(s) <==> t == []
    ensures t != [] ==> !IsWhitespace(t[0]) && !IsWhitespace(t[|t| - 1])
    ensures LeadingWhitespace(s) + |t| <= |s|
    ensures t == s[LeadingWhitespace(s)..LeadingWhitespace(s) + |t|]
  {
    var a := LeadingWhitespace(s);
    var u := s[a..];
    var b := TrailingWhitespace(u);
    var t := u[..|u| - b];
    TrimEnds(s, a, u, b, t);
    TrailingBlank(u);
    TrimSlice(s, a, u, b, t);
    t
  }

  /** A text is its leading whitespace, then its trimmed slice, then a blank tail. */
  lemma TrimSurround(s: string)
    ensures var a := LeadingWhitespace(s); var t := Trim(s);
      s == s[..a] + t + s[a + |t|..] && IsBlank(s[..a]) && IsBlank(s[a + |t|..])
  {
    var a := LeadingWhitespace(s);
    var u := s[a..];
    var b := TrailingWhitespace(u);
    TrailingBlank(u);
    TrimSlice(s, a, u, b, u[..|u| - b]);
    LeadingBlank(s);
    Rejoin(s, a, Trim(s));
  }

  /** The leading whitespace of a text is blank. */
  lemma LeadingBlank(s: string)
    ensures IsBlank(s[..LeadingWhitespace(s)])
  {
    var lead := s[..LeadingWhitespace(s)];
    forall i | 0 <= i < |lead| ensures IsWhitespace(lead[i]) {
      assert lead[i] == s[i];
    }
  }

  /** A text is what comes before a slice of it, the slice, and what comes after. */
  lemma Rejoin(s: string, a: nat, t: string)
    requires a + |t| <= |s| && t == s[a..a + |t|]
    ensures s == s[..a] + t + s[a + |t|..]
  {
  }

  /** The trimmed slice is empty exactly for a blank text, and otherwise starts and ends on non-whitespace. */
  lemma TrimEnds(s: string, a: nat, u: string, b: nat, t: string)
    requires a == LeadingWhitespace(s) && u == s[a..] && b == TrailingWhitespace(u) && t == u[..|u| - b]
    ensures IsBlank(s) <==> t == []
    ensures t != [] ==> !IsWhitespace(t[0]) && !IsWhitespace(t[|t| - 1])
  {
    assert IsBlank(s) <==> a == |s| by {
      if a < |s| { assert !IsWhitespace(s[a]); }
    }
    if a < |s| {
      assert !IsWhitespace(u[0]);
      assert t[0] == u[0] && t[|t| - 1] == u[|u| - b - 1];
    }
  }

  /** The trimmed slice sits right after the leading whitespace and only whitespace follows it. */
  lemma TrimSlice(s: string, a: nat, u: string, b: nat, t: string)
    requires a <= |s| && u == s[a..] && b <= |u| && IsBlank(u[|u| - b..]) && t == u[..|u| - b]
    ensures a + |t| <= |s| && t == s[a..a + |t|]
    ensures IsBlank(s[a + |t|..])
  {
    assert s[a + |t|..] == u[|u| - b..];
  }

  /** `c.to_string().repeat(n)` */
  function Repeat(c: char, n: nat): (r: string)
    ensures |r| == n
    ensures forall i :: 0 <= i < n ==> r[i] == c
  {
    if n == 0 then [] else [c] + Repeat(c, n - 1)
  }

  /**
   * `s.replace(pat, rep)`: every non-overlapping occurrence of `pat`, scanning
   * left to right, is replaced by `rep`.
   */
  function Replace(s: string, pat: string, rep: string): string
    requires |pat| > 0
    decreases |s|
  {
    if |s| < |pat| then s
    else if s[..|pat|] == pat then rep + Replace(s[|pat|..], pat, rep)
    else [s[0]] + Replace(s[1..], pat, rep)
  }

  /** Replacing a pattern by itself changes nothing; a same-length replacement keeps the length. */
  lemma {:induction false} ReplaceSameLength(s: string, pat: string, rep: string)
    requires |pat| > 0
    ensures |rep| == |pat| ==> |Replace(s, pat, rep)| == |s|
    ensures rep == pat ==> Replace(s, pat, rep) == s
    decreases |s|
  {
    if |s| < |pat| {
    } else if s[..|pat|] == pat {
      ReplaceSameLength(s[|pat|..], pat, rep);
      assert s == pat + s[|pat|..];
    } else {
      ReplaceSameLength(s[1..], pat, rep);
      assert s == [s[0]] + s[1..];
    }
  }

  /** Replacing never invents a character that is in neither the text nor the replacement. */
  lemma {:induction false} ReplaceChars(s: string, pat: string, rep: string, c: char)
    requires |pat| > 0
    requires c !in s && c !in rep
    ensures c !in Replace(s, pat, rep)
    decreases |s|
  {
    if |s| < |pat| {
    } else if s[..|pat|] == pat {
      ReplaceChars(s[|pat|..], pat, rep, c);
    } else {
      ReplaceChars(s[1..], pat, rep, c);
    }
  }

  /** Replacing a one-character pattern by a text without it removes that character entirely. */
  lemma {:induction false} ReplaceRemoves(s: string, pat: string, rep: string)
    requires |pat| == 1 && pat[0] !in rep
    ensures pat[0] !in Replace(s, pat, rep)
    decreases |s|
  {
    if |s| < |pat| {
    } else if s[..|pat|] == pat {
      ReplaceRemoves(s[|pat|..], pat, rep);
    } else {
      assert s[0] != pat[0] by { assert s[..1] == [s[0]]; }
      ReplaceRemoves(s[1..], pat, rep);
    }
  }

  /** Drops one `'\r'` before a line break, as `str::lines` does. */
  function StripCr(line: string): string {
    if |line| > 0 && line[|line| - 1] == '\r' then line[..|line| - 1] else line
  }

  /**
   * `s.lines()`: the text split at each `'\n'` (a `'\r'` just before it is
   * dropped too); a final line break does not start an extra empty line.
   */
  function Lines(s: string): (ls: seq<string>)
    decreases |s|
    ensures forall k :: 0 <= k < |ls| ==> '\n' !in ls[k]
  {
    if s == [] then []
    else match Find(s, "\n")
      case None =>
        assert '\n' !in s by {
          forall j | 0 <= j < |s| ensures s[j] != '\n' {
            assert !OccursAt(s, "\n", j);
            assert s[j..j + 1] == [s[j]];
          }
        }
        [s]
      case Some(i) =>
        assert '\n' !in s[..i] by {
          forall j | 0 <= j < i ensures s[j] != '\n' {
            assert !OccursAt(s, "\n", j);
            assert s[j..j + 1] == [s[j]];
          }
        }
        [StripCr(s[..i])] + Lines(s[i + 1..])
  }

  /** A character absent from a text is absent from each of its lines. */
  lemma {:induction false} LinesChars(s: string, c: char)
    requires c !in s
    ensures forall k :: 0 <= k < |Lines(s)| ==> c !in Lines(s)[k]
    decreases |s|
  {
    if s != [] {
      match Find(s, "\n")
      case None =>
      case Some(i) =>
        assert c !in s[..i] by {
          forall j | 0 <= j < i ensures s[..i][j] != c {
            assert s[..i][j] == s[j];
          }
        }
        var after := s[i + 1..];
        assert c !in after by {
          forall j | 0 <= j < |after| ensures after[j] != c {
            assert after[j] == s[i + 1 + j];
          }
        }
        LinesChars(s[i + 1..], c);
        var ls := Lines(s);
        forall k | 0 <= k < |ls| ensures c !in ls[k] {
          if k > 0 {
            assert ls[k] == Lines(s[i + 1..])[k - 1];
          } else {
            assert StripCr(s[..i]) == s[..i] || StripCr(s[..i]) == s[..i][..|s[..i]| - 1];
          }
        }
    }
  }

  /** `parts.join(sep)` */
  function Join(parts: seq<string>, sep: string): string
    decreases |parts|
  {
    if |parts| == 0 then []
    else if |parts| == 1 then parts[0]
    else parts[0] + sep + Join(parts[1..], sep)
  }

  /** A joined text starts with the first part, then the separator when there are more parts, and ends with the last part. */
  lemma {:induction false} JoinParts(parts: seq<string>, sep: string)
    requires |parts| > 0
    ensures var r := Join(parts, sep); |parts[0]| <= |r| && r[..|parts[0]|] == parts[0]
    ensures var r := Join(parts, sep);
      |parts| > 1 ==> |parts[0]| + |sep| <= |r| && r[|parts[0]|..|parts[0]| + |sep|] == sep
    ensures var r := Join(parts, sep); var last := parts[|parts| - 1];
      |last| <= |r| && r[|r| - |last|..] == last
    decreases |parts|
  {
    if |parts| > 1 {
      JoinParts(parts[1..], sep);
      var t := Join(parts[1..], sep);
      var r := parts[0] + sep + t;
      assert Join(parts, sep) == r;
      assert parts[1..][|parts[1..]| - 1] == parts[|parts| - 1];
      assert r[|r| - |parts[|parts| - 1]|..] == t[|t| - |parts[|parts| - 1]|..];
    }
  }

  /**
   * The lines of a text without `'\r'`, joined by `'\n'`, give the text
   * back; a final line break, which starts no line of its own, is the only
   * thing lost.
   */
  lemma {:induction false} JoinLines(s: string)
    requires '\r' !in s
    ensures EndsWithBreak(s) ==> Join(Lines(s), "\n") + "\n" == s
    ensures !EndsWithBreak(s) ==> Join(Lines(s), "\n") == s
    decreases |s|
  {
    if s != [] {
      match Find(s, "\n") {
        case None =>
          assert !OccursAt(s, "\n", |s| - 1);
          assert s[|s| - 1..] == [s[|s| - 1]];
        case Some(i) =>
          var head, rest := s[..i], s[i + 1..];
          assert s[i..i + 1] == "\n";
          assert s == head + "\n" + rest;
          assert StripCr(head) == head by {
            if |head| > 0 { assert head[|head| - 1] == s[i - 1]; }
          }
          assert '\r' !in rest by {
            forall j | 0 <= j < |rest| ensures rest[j] != '\r' { assert rest[j] == s[i + 1 + j]; }
          }
          JoinLines(rest);
          JoinLinesCons(head, rest, Lines(rest));
      }
    }
  }

  /** `s` ends with a line break. */
  predicate EndsWithBreak(s: string) {
    s != [] && s[|s| - 1] == '\n'
  }

  /** One step of `JoinLines`: a first line, its break, and the rest of the text. */
  lemma JoinLinesCons(head: string, rest: string, ls: seq<string>)
    requires ls == Lines(rest)
    requires EndsWithBreak(rest) ==> Join(ls, "\n") + "\n" == rest
    requires !EndsWithBreak(rest) ==> Join(ls, "\n") == rest
    ensures EndsWithBreak(head + "\n" + rest) ==> Join([head] + ls, "\n") + "\n" == head + "\n" + rest
    ensures !EndsWithBreak(head + "\n" + rest) ==> Join([head] + ls, "\n") == head + "\n" + rest
  {
    var s := head + "\n" + rest;
    if rest == [] {
      assert ls == [];
      assert EndsWithBreak(s);
    } else {
      assert |ls| > 0;
      assert ([head] + ls)[1..] == ls;
      assert Join([head] + ls, "\n") == head + "\n" + Join(ls, "\n");
      assert EndsWithBreak(s) <==> EndsWithBreak(rest) by {
        assert s[|s| - 1] == rest[|rest| - 1];
      }
    }
  }

  /** Decimal rendering of a natural number, as `format!("{}", n)`. */
  function NatToString(n: nat): (r: string)
    ensures |r| > 0
    ensures forall i :: 0 <= i < |r| ==> '0' <= r[i] <= '9'
  {
    var d := [(48 + n % 10) as char];
    if n < 10 then d else NatToString(n / 10) + d
  }

  /** Decimal rendering of an integer, with a leading `'-'` when negative. */
  function IntToString(i: int): string {
    if i < 0 then "-" + NatToString(-i) else NatToString(i)
  }
}
