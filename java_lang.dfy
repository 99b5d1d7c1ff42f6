/**
 * The pieces of java.lang.String, java.util.regex and Integer that the
 * assistant's code relies on, written out as functions over `string`.
 *
 * A Dafny `char` stands for one Java `char`.  Only the behaviour the core
 * actually exercises is modelled: `trim`, `toLowerCase` (ASCII and Latin-1
 * letters), `contains`, `startsWith`, `endsWith`, `split` with a literal
 * separator or with the sentence pattern `(?<=[.!?])\s+` (both drop trailing
 * empty strings), `matches(".*(a|b|...).*")`, `String.join` and
 * `Integer.parseInt`.
 */
module JavaLang {

  /** A Java reference that may be null. */
  datatype Option<T> = None | Some(value: T)

  // ---------------------------------------------------------------------
  // Characters
  // ---------------------------------------------------------------------

  /** `String.trim` strips every character at or below U+0020. */
  predicate IsBlankChar(c: char) { c <= ' ' }

  predicate IsBlank(s: string) {
    forall i | 0 <= i < |s| :: IsBlankChar(s[i])
  }

  /** `\s` of java.util.regex (no UNICODE_CHARACTER_CLASS flag): [ \t\n\x0B\f\r]. */
  predicate IsRegexSpace(c: char) {
    c == ' ' || c == '\t' || c == '\n' || c == '\U{0B}' || c == '\U{0C}' || c == '\r'
  }

  /** The characters `.` does not match in java.util.regex (no DOTALL, no UNIX_LINES flag). */
  predicate IsLineTerminator(c: char) {
    c == '\n' || c == '\r' || c == '\U{85}' || c == '\U{2028}' || c == '\U{2029}'
  }

  predicate IsSentenceEnd(c: char) { c == '.' || c == '!' || c == '?' }

  predicate IsDigit(c: char) { '0' <= c <= '9' }

  /** Lower-casing of one character, for the ASCII and Latin-1 capitals. */
  function LowerChar(c: char): char {
    if 'A' <= c <= 'Z' || ('\U{C0}' <= c <= '\U{DE}' && c != '\U{D7}') then (c as int + 32) as char else c
  }

  /** `String.toLowerCase()`, character by character. */
  function ToLower(s: string): (r: string)
    ensures |r| == |s|
    ensures forall i | 0 <= i < |s| :: r[i] == LowerChar(s[i])
  {
    seq(|s|, i requires 0 <= i < |s| => LowerChar(s[i]))
  }

  lemma ToLowerAppend(a: string, b: string)
    ensures ToLower(a + b) == ToLower(a) + ToLower(b)
  {
    assert forall i | 0 <= i < |a + b| :: ToLower(a + b)[i] == (ToLower(a) + ToLower(b))[i];
  }

  /** Lower-casing twice changes nothing. */
  lemma ToLowerIdempotent(s: string)
    ensures ToLower(ToLower(s)) == ToLower(s)
  {
    assert forall i | 0 <= i < |s| :: ToLower(ToLower(s))[i] == ToLower(s)[i];
  }

  // ---------------------------------------------------------------------
  // Substrings
  // ---------------------------------------------------------------------

  predicate OccursAt(s: string, sub: string, i: int) {
    0 <= i && i + |sub| <= |s| && s[i..i + |sub|] == sub
  }

  /** `s.contains(sub)`. */
  predicate Contains(s: string, sub: string) {
    exists i | 0 <= i <= |s| - |sub| :: OccursAt(s, sub, i)
  }

  /** `s.startsWith(p)`. */
  predicate StartsWith(s: string, p: string) {
    |p| <= |s| && s[..|p|] == p
  }

  /** `s.endsWith(q)`. */
  predicate EndsWith(s: string, q: string) {
    |q| <= |s| && s[|s| - |q|..] == q
  }

  /** If `t` occurs in `s` and `u` occurs in `t`, then `u` occurs in `s`. */
  lemma ContainsTransitive(s: string, t: string, u: string)
    requires Contains(s, t) && Contains(t, u)
    ensures Contains(s, u)
  {
    var i :| 0 <= i <= |s| - |t| && OccursAt(s, t, i);
    var j :| 0 <= j <= |t| - |u| && OccursAt(t, u, j);
    forall k | 0 <= k < |u| ensures s[i + j + k] == u[k] {
      assert u[k] == t[j + k] == s[i + j + k];
    }
    assert s[i + j..i + j + |u|] == u;
    assert OccursAt(s, u, i + j);
  }

  /** Whatever occurs in a suffix of `s` occurs in `s`. */
  lemma ContainsInSuffix(a: string, b: string, u: string)
    requires Contains(b, u)
    ensures Contains(a + b, u)
  {
    var j :| 0 <= j <= |b| - |u| && OccursAt(b, u, j);
    assert (a + b)[|a| + j..|a| + j + |u|] == b[j..j + |u|];
    assert OccursAt(a + b, u, |a| + j);
  }

  /** What is spliced between texts occurs in the result. */
  lemma ContainsParts(a: string, x: string, b: string, y: string, c: string)
    ensures Contains(a + x + b + y + c, x)
    ensures Contains(a + x + b + y + c, y)
  {
    var s := a + x + b + y + c;
    assert s[|a|..|a| + |x|] == x;
    assert OccursAt(s, x, |a|);
    var j := |a + x + b|;
    assert s[j..j + |y|] == y;
    assert OccursAt(s, y, j);
  }

  // ---------------------------------------------------------------------
  // trim
  // ---------------------------------------------------------------------

  function TrimStart(s: string): string
    decreases |s|
  {
    if |s| > 0 && IsBlankChar(s[0]) then TrimStart(s[1..]) else s
  }

  function TrimEnd(s: string): string
    decreases |s|
  {
    if |s| > 0 && IsBlankChar(s[|s| - 1]) then TrimEnd(s[..|s| - 1]) else s
  }

  /** `String.trim()`: drop the characters at or below U+0020 at both ends. */
  function Trim(s: string): string {
    TrimEnd(TrimStart(s))
  }

  lemma {:induction false} TrimStartIsSuffix(s: string)
    ensures |TrimStart(s)| <= |s| && TrimStart(s) == s[|s| - |TrimStart(s)|..]
    ensures IsBlank(s[..|s| - |TrimStart(s)|])
    ensures TrimStart(s) == [] || !IsBlankChar(TrimStart(s)[0])
    decreases |s|
  {
    if |s| > 0 && IsBlankChar(s[0]) {
      TrimStartIsSuffix(s[1..]);
      var k := |s| - |TrimStart(s)|;
      assert s[..k] == [s[0]] + s[1..][..k - 1];
    }
  }

  lemma {:induction false} TrimEndIsPrefix(s: string)
    ensures |TrimEnd(s)| <= |s| && TrimEnd(s) == s[..|TrimEnd(s)|]
    ensures IsBlank(s[|TrimEnd(s)|..])
    ensures TrimEnd(s) == [] || !IsBlankChar(TrimEnd(s)[|TrimEnd(s)| - 1])
    decreases |s|
  {
    if |s| > 0 && IsBlankChar(s[|s| - 1]) {
      TrimEndIsPrefix(s[..|s| - 1]);
      var k := |TrimEnd(s)|;
      assert s[k..] == s[..|s| - 1][k..] + [s[|s| - 1]];
    }
  }

  /** `trim` never lengthens a string. */
  lemma TrimShorter(s: string)
    ensures |Trim(s)| <= |s|
  {
    TrimStartIsSuffix(s);
    TrimEndIsPrefix(TrimStart(s));
  }

  lemma {:induction false} TrimEndBlankSuffix(s: string, w: string)
    requires IsBlank(w)
    ensures TrimEnd(s + w) == TrimEnd(s)
    decreases |w|
  {
    if w != [] {
      var s' := s + w[..|w| - 1];
      assert s + w == s' + [w[|w| - 1]];
      assert (s + w)[..|s + w| - 1] == s';
      TrimEndBlankSuffix(s, w[..|w| - 1]);
    } else {
      assert s + w == s;
    }
  }

  lemma {:induction false} TrimStartBlank(w: string)
    requires IsBlank(w)
    ensures TrimStart(w) == []
    decreases |w|
  {
    if w != [] {
      TrimStartBlank(w[1..]);
    }
  }

  lemma {:induction false} TrimStartAppend(s: string, w: string)
    requires IsBlank(w)
    ensures TrimStart(s + w) == TrimStart(s) + w || (TrimStart(s) == [] && TrimStart(s + w) == [])
    decreases |s|
  {
    if s == [] {
      assert s + w == w;
      TrimStartBlank(w);
    } else if IsBlankChar(s[0]) {
      assert (s + w)[1..] == s[1..] + w;
      TrimStartAppend(s[1..], w);
    }
  }

  /** Appending blank characters does not change what `trim` returns. */
  lemma TrimBlankSuffix(s: string, w: string)
    requires IsBlank(w)
    ensures Trim(s + w) == Trim(s)
  {
    TrimStartAppend(s, w);
    if TrimStart(s + w) == TrimStart(s) + w {
      TrimEndBlankSuffix(TrimStart(s), w);
    } else {
      assert TrimStart(s) == [] && TrimStart(s + w) == [];
    }
  }

  /** A string whose first and last characters are above U+0020 is its own trim. */
  lemma TrimNoBlankEnds(s: string)
    requires |s| > 0 && !IsBlankChar(s[0]) && !IsBlankChar(s[|s| - 1])
    ensures Trim(s) == s
  {
  }

  lemma {:induction false} TrimStartFirst(s: string)
    ensures TrimStart(s) == [] || !IsBlankChar(TrimStart(s)[0])
    decreases |s|
  {
    if |s| > 0 && IsBlankChar(s[0]) {
      TrimStartFirst(s[1..]);
    }
  }

  lemma {:induction false} TrimEndLast(s: string)
    ensures TrimEnd(s) == [] || !IsBlankChar(TrimEnd(s)[|TrimEnd(s)| - 1])
    decreases |s|
  {
    if |s| > 0 && IsBlankChar(s[|s| - 1]) {
      TrimEndLast(s[..|s| - 1]);
    }
  }

  /** A non-empty trim starts and ends with characters above U+0020. */
  lemma TrimEnds(s: string)
    ensures Trim(s) != [] ==> !IsBlankChar(Trim(s)[0]) && !IsBlankChar(Trim(s)[|Trim(s)| - 1])
  {
    TrimStartFirst(s);
    TrimEndLast(TrimStart(s));
    TrimEndIsPrefix(TrimStart(s));
  }

  /** `trim` yields the empty string exactly for blank strings. */
  lemma TrimEmptyIffBlank(s: string)
    ensures Trim(s) == [] <==> IsBlank(s)
  {
    TrimStartIsSuffix(s);
    TrimEndIsPrefix(TrimStart(s));
    if IsBlank(s) {
      TrimStartBlank(s);
    }
    if Trim(s) == [] {
      var t := TrimStart(s);
      assert t[0..] == t;
      assert t == [];
      assert s[..|s|] == s;
    }
  }

  // ---------------------------------------------------------------------
  // The visible part of a string: what is left after deleting every
  // character at or below U+0020.  Splitting, joining with blank separators
  // and trimming all leave it unchanged.
  // ---------------------------------------------------------------------

  function Visible(s: string): string {
    if s == [] then [] else (if IsBlankChar(s[0]) then [] else [s[0]]) + Visible(s[1..])
  }

  lemma {:induction false} VisibleAppend(a: string, b: string)
    ensures Visible(a + b) == Visible(a) + Visible(b)
  {
    if a == [] {
      assert a + b == b;
    } else {
      assert (a + b)[1..] == a[1..] + b;
      VisibleAppend(a[1..], b);
    }
  }

  lemma {:induction false} VisibleBlank(w: string)
    requires IsBlank(w)
    ensures Visible(w) == []
  {
    if w != [] {
      VisibleBlank(w[1..]);
    }
  }

  /** Deleting a blank middle leaves the visible text unchanged. */
  lemma VisibleSkipsBlank(a: string, w: string, b: string)
    requires IsBlank(w)
    ensures Visible(a + w + b) == Visible(a) + Visible(b)
  {
    VisibleAppend(a + w, b);
    VisibleAppend(a, w);
    VisibleBlank(w);
  }

  lemma VisibleBlankSuffix(x: string, w: string)
    requires IsBlank(w)
    ensures Visible(x + w) == Visible(x)
  {
    VisibleAppend(x, w);
    VisibleBlank(w);
  }

  /** Trimming removes only characters that are not visible. */
  lemma VisibleTrim(s: string)
    ensures Visible(Trim(s)) == Visible(s)
  {
    TrimStartIsSuffix(s);
    var t := TrimStart(s);
    var k := |s| - |t|;
    assert s == s[..k] + t;
    VisibleAppend(s[..k], t);
    VisibleBlank(s[..k]);
    TrimEndIsPrefix(t);
    var m := |TrimEnd(t)|;
    assert t == t[..m] + t[m..];
    VisibleAppend(t[..m], t[m..]);
    VisibleBlank(t[m..]);
  }

  lemma AppendAssociative(x: string, y: string, z: string)
    ensures x + y + z == x + (y + z)
  {
  }

  // ---------------------------------------------------------------------
  // Concatenation and String.join
  // ---------------------------------------------------------------------

  function Concat(ss: seq<string>): string {
    if ss == [] then [] else ss[0] + Concat(ss[1..])
  }

  lemma ConcatSingleton(x: string)
    ensures Concat([x]) == x
  {
    assert [x][1..] == [];
  }

  lemma ConcatCons(x: string, rest: seq<string>)
    ensures Concat([x] + rest) == x + Concat(rest)
  {
    assert ([x] + rest)[1..] == rest;
  }

  lemma {:induction false} ConcatAppend(a: seq<string>, b: seq<string>)
    ensures Concat(a + b) == Concat(a) + Concat(b)
  {
    if a == [] {
      assert a + b == b;
    } else {
      assert (a + b)[1..] == a[1..] + b;
      ConcatAppend(a[1..], b);
    }
  }

  /** `String.join(sep, ss)`, equivalently `Collectors.joining(sep)`. */
  function Join(ss: seq<string>, sep: string): string {
    if |ss| == 0 then [] else if |ss| == 1 then ss[0] else ss[0] + sep + Join(ss[1..], sep)
  }

  function TotalLength(ss: seq<string>): nat {
    if ss == [] then 0 else |ss[0]| + TotalLength(ss[1..])
  }

  /** Joining `n` strings inserts exactly `n - 1` separators. */
  lemma {:induction false} JoinLength(ss: seq<string>, sep: string)
    requires |ss| > 0
    ensures |Join(ss, sep)| == TotalLength(ss) + (|ss| - 1) * |sep|
  {
    if |ss| > 1 {
      JoinLength(ss[1..], sep);
    }
  }

  /** Appending one more string to a join adds one separator and that string. */
  lemma {:induction false} JoinSnoc(ss: seq<string>, x: string, sep: string)
    requires |ss| > 0
    ensures Join(ss + [x], sep) == Join(ss, sep) + sep + x
  {
    if |ss| > 1 {
      assert (ss + [x])[1..] == ss[1..] + [x];
      JoinSnoc(ss[1..], x, sep);
    } else {
      assert ss + [x] == [ss[0], x];
    }
  }

  // ---------------------------------------------------------------------
  // String.split
  // ---------------------------------------------------------------------

  /** Removal of the trailing empty strings that `split(regex)` performs. */
  function DropTrailingEmpty(ps: seq<string>): (r: seq<string>)
    ensures |r| <= |ps| && r == ps[..|r|]
    ensures forall k | |r| <= k < |ps| :: ps[k] == []
    ensures r == [] || r[|r| - 1] != []
  {
    if ps != [] && ps[|ps| - 1] == [] then DropTrailingEmpty(ps[..|ps| - 1]) else ps
  }

  lemma DropTrailingEmptyConcat(ps: seq<string>)
    ensures Concat(DropTrailingEmpty(ps)) == Concat(ps)
  {
    var r := DropTrailingEmpty(ps);
    var tail := ps[|r|..];
    assert ps == r + tail;
    ConcatAppend(r, tail);
    EmptiesConcat(tail);
  }

  lemma {:induction false} EmptiesConcat(ps: seq<string>)
    requires forall k | 0 <= k < |ps| :: ps[k] == []
    ensures Concat(ps) == []
  {
    if ps != [] {
      EmptiesConcat(ps[1..]);
    }
  }

  /**
   * The pieces a literal separator cuts `s[start..]` into, scanning for the
   * next occurrence from `i` on; occurrences do not overlap.
   */
  function Pieces(s: string, sep: string, start: nat, i: nat): (r: seq<string>)
    requires |sep| > 0 && start <= i <= |s|
    ensures |r| >= 1
    ensures |r| == 1 ==> r[0] == s[start..]
    decreases |s| - i
  {
    if i + |sep| > |s| then [s[start..]]
    else if s[i..i + |sep|] == sep then [s[start..i]] + Pieces(s, sep, i + |sep|, i + |sep|)
    else Pieces(s, sep, start, i + 1)
  }

  /**
   * `s.split(sep)` for a separator without regex metacharacters: when the
   * separator does not occur the result is `[s]`, otherwise the pieces with
   * the trailing empty ones removed.
   */
  function Split(s: string, sep: string): seq<string>
    requires |sep| > 0
  {
    var raw := Pieces(s, sep, 0, 0);
    if |raw| == 1 then raw else DropTrailingEmpty(raw)
  }

  lemma {:induction false} VisiblePieces(s: string, sep: string, start: nat, i: nat)
    requires |sep| > 0 && start <= i <= |s| && Visible(sep) == []
    ensures Visible(Concat(Pieces(s, sep, start, i))) == Visible(s[start..])
    decreases |s| - i
  {
    if i + |sep| > |s| {
      assert Pieces(s, sep, start, i) == [s[start..]];
      ConcatSingleton(s[start..]);
    } else if s[i..i + |sep|] == sep {
      VisiblePieces(s, sep, i + |sep|, i + |sep|);
      VisiblePiecesAtSeparator(s, sep, start, i);
    } else {
      VisiblePieces(s, sep, start, i + 1);
      assert Pieces(s, sep, start, i) == Pieces(s, sep, start, i + 1);
    }
  }

  /** The step of `VisiblePieces` where a separator starts at `i`. */
  lemma VisiblePiecesAtSeparator(s: string, sep: string, start: nat, i: nat)
    requires |sep| > 0 && start <= i && i + |sep| <= |s| && s[i..i + |sep|] == sep && Visible(sep) == []
    requires Visible(Concat(Pieces(s, sep, i + |sep|, i + |sep|))) == Visible(s[i + |sep|..])
    ensures Visible(Concat(Pieces(s, sep, start, i))) == Visible(s[start..])
  {
    var j := i + |sep|;
    var a, b, rest := s[start..i], s[j..], Pieces(s, sep, j, j);
    assert Pieces(s, sep, start, i) == [a] + rest;
    assert s[start..] == a + sep + b by {
      SliceThree(s, start, i, j);
    }
    VisibleConsPiece(a, sep, b, rest);
  }

  lemma SliceThree(s: string, start: nat, i: nat, j: nat)
    requires start <= i <= j <= |s|
    ensures s[start..] == s[start..i] + s[i..j] + s[j..]
  {
  }

  /** One piece in front of the rest of a split, with the blank separator between them. */
  lemma VisibleConsPiece(a: string, sep: string, b: string, rest: seq<string>)
    requires Visible(sep) == [] && Visible(Concat(rest)) == Visible(b)
    ensures Visible(Concat([a] + rest)) == Visible(a + sep + b)
  {
    ConcatCons(a, rest);
    VisibleAppend(a, Concat(rest));
    VisibleAppend(a + sep, b);
    VisibleAppend(a, sep);
  }

  /** Splitting on a blank separator loses no visible character and keeps their order. */
  lemma VisibleSplit(s: string, sep: string)
    requires |sep| > 0 && IsBlank(sep)
    ensures Visible(Concat(Split(s, sep))) == Visible(s)
  {
    VisibleBlank(sep);
    VisiblePieces(s, sep, 0, 0);
    DropTrailingEmptyConcat(Pieces(s, sep, 0, 0));
  }

  /** What the first piece of a split on a one-character separator looks like. */
  lemma {:induction false} FirstPiece(s: string, sep: string, start: nat, i: nat)
    requires |sep| == 1 && start <= i <= |s|
    requires forall k | start <= k < i :: s[k] != sep[0]
    ensures var p := Pieces(s, sep, start, i)[0];
      start + |p| <= |s| && p == s[start..start + |p|] &&
      (forall k | 0 <= k < |p| :: p[k] != sep[0]) &&
      (start + |p| == |s| || s[start + |p|] == sep[0])
    decreases |s| - i
  {
    if i + |sep| > |s| {
    } else if s[i..i + |sep|] == sep {
      assert s[i] == sep[0];
    } else {
      assert s[i] != sep[0] by { assert s[i..i + 1] == [s[i]]; }
      FirstPiece(s, sep, start, i + 1);
    }
  }

  /**
   * The first token of `s.split(sep)` for a one-character separator, when `s`
   * does not start with it: the longest prefix free of the separator.
   */
  lemma SplitFirstToken(s: string, sep: string)
    requires |sep| == 1 && |s| > 0 && s[0] != sep[0]
    ensures var ts := Split(s, sep);
      |ts| > 0 && 0 < |ts[0]| <= |s| && ts[0] == s[..|ts[0]|] &&
      (forall k | 0 <= k < |ts[0]| :: ts[0][k] != sep[0]) &&
      (|ts[0]| == |s| || s[|ts[0]|] == sep[0])
  {
    var raw := Pieces(s, sep, 0, 0);
    FirstPiece(s, sep, 0, 0);
    assert |raw[0]| > 0;
    var r := DropTrailingEmpty(raw);
    if |raw| > 1 {
      assert raw[0] != [];
      assert |r| > 0;
      assert r[0] == raw[0];
    }
  }

  // ---------------------------------------------------------------------
  // split("(?<=[.!?])\\s+"): cut after sentence punctuation, dropping the
  // run of white space that follows it.
  // ---------------------------------------------------------------------

  /** A match of the sentence pattern starts at `i`. */
  predicate BreaksAt(s: string, i: int) {
    1 <= i < |s| && IsSentenceEnd(s[i - 1]) && IsRegexSpace(s[i])
  }

  /** End of the greedy `\s+` run starting at `i`. */
  function SpaceRunEnd(s: string, i: nat): (j: nat)
    requires i <= |s|
    ensures i <= j <= |s|
    ensures forall k | i <= k < j :: IsRegexSpace(s[k])
    ensures j == |s| || !IsRegexSpace(s[j])
    decreases |s| - i
  {
    if i < |s| && IsRegexSpace(s[i]) then SpaceRunEnd(s, i + 1) else i
  }

  function SentencePieces(s: string, start: nat, i: nat): (r: seq<string>)
    requires start <= i <= |s|
    ensures |r| >= 1
    ensures |r| == 1 ==> r[0] == s[start..]
    decreases |s| - i
  {
    if i == |s| then [s[start..]]
    else if BreaksAt(s, i) then
      var j := SpaceRunEnd(s, i);
      [s[start..i]] + SentencePieces(s, j, j)
    else SentencePieces(s, start, i + 1)
  }

  /** `paragraph.split("(?<=[.!?])\\s+")`. */
  function SentenceSplit(p: string): seq<string> {
    var raw := SentencePieces(p, 0, 0);
    if |raw| == 1 then raw else DropTrailingEmpty(raw)
  }

  lemma {:induction false} VisibleSentencePieces(s: string, start: nat, i: nat)
    requires start <= i <= |s|
    ensures Visible(Concat(SentencePieces(s, start, i))) == Visible(s[start..])
    decreases |s| - i
  {
    if i == |s| {
      ConcatSingleton(s[start..]);
    } else if BreaksAt(s, i) {
      var j := SpaceRunEnd(s, i);
      var a, w, b := s[start..i], s[i..j], s[j..];
      var rest := SentencePieces(s, j, j);
      VisibleSentencePieces(s, j, j);
      ConcatCons(a, rest);
      assert s[start..] == a + w + b;
      VisibleSkipsBlank(a, w, b);
      VisibleAppend(a, Concat(rest));
    } else {
      VisibleSentencePieces(s, start, i + 1);
    }
  }

  /** The sentence split loses no visible character and keeps their order. */
  lemma VisibleSentenceSplit(p: string)
    ensures Visible(Concat(SentenceSplit(p))) == Visible(p)
  {
    VisibleSentencePieces(p, 0, 0);
    DropTrailingEmptyConcat(SentencePieces(p, 0, 0));
  }

  lemma {:induction false} SentencePiecesNonEmpty(s: string, start: nat, i: nat)
    requires start <= i <= |s|
    requires start < i || !BreaksAt(s, i)
    ensures forall k | 0 <= k < |SentencePieces(s, start, i)| - 1 :: SentencePieces(s, start, i)[k] != []
    decreases |s| - i
  {
    if i == |s| {
    } else if BreaksAt(s, i) {
      var j := SpaceRunEnd(s, i);
      assert !BreaksAt(s, j) by {
        if j < |s| { assert IsRegexSpace(s[j - 1]); }
      }
      SentencePiecesNonEmpty(s, j, j);
      var rest := SentencePieces(s, j, j);
      assert SentencePieces(s, start, i) == [s[start..i]] + rest;
      assert s[start..i] != [] by { assert |s[start..i]| == i - start > 0; }
    } else {
      SentencePiecesNonEmpty(s, start, i + 1);
    }
  }

  /** Every sentence of a non-empty paragraph is non-empty. */
  lemma SentenceSplitNonEmpty(p: string)
    requires p != []
    ensures forall k | 0 <= k < |SentenceSplit(p)| :: SentenceSplit(p)[k] != []
  {
    var raw := SentencePieces(p, 0, 0);
    SentencePiecesNonEmpty(p, 0, 0);
    if |raw| == 1 {
      assert raw[0] == p[0..] == p;
    } else {
      var r := DropTrailingEmpty(raw);
      forall k | 0 <= k < |r| ensures r[k] != [] {
        if k < |r| - 1 {
          assert r[k] == raw[k];
          assert k < |raw| - 1;
        }
      }
    }
  }

  /** Without a sentence break the paragraph is a single sentence. */
  lemma {:induction false} NoBreakSinglePiece(s: string, start: nat, i: nat)
    requires start <= i <= |s|
    requires forall k | i <= k < |s| :: !BreaksAt(s, k)
    ensures SentencePieces(s, start, i) == [s[start..]]
    decreases |s| - i
  {
    if i < |s| {
      NoBreakSinglePiece(s, start, i + 1);
    }
  }

  /** Without an occurrence of the separator the split yields the whole string. */
  lemma {:induction false} NoOccurrenceSinglePiece(s: string, sep: string, start: nat, i: nat)
    requires |sep| > 0 && start <= i <= |s|
    requires forall k | i <= k <= |s| - |sep| :: !OccursAt(s, sep, k)
    ensures Pieces(s, sep, start, i) == [s[start..]]
    decreases |s| - i
  {
    if i + |sep| <= |s| {
      assert !OccursAt(s, sep, i);
      NoOccurrenceSinglePiece(s, sep, start, i + 1);
    }
  }

  // ---------------------------------------------------------------------
  // s.matches(".*(a1|a2|...).*")
  // ---------------------------------------------------------------------

  /**
   * `s.matches(".*(a1|...|an).*")` for alternatives that contain no line
   * terminator: `.` matches neither `\n` nor the other line terminators, so
   * the whole-string match succeeds exactly when `s` has no line terminator
   * and contains one of the alternatives.
   */
  predicate MatchesAnyOf(s: string, alternatives: seq<string>) {
    (forall i | 0 <= i < |s| :: !IsLineTerminator(s[i])) &&
    exists k | 0 <= k < |alternatives| :: Contains(s, alternatives[k])
  }

  // ---------------------------------------------------------------------
  // Integer.parseInt
  // ---------------------------------------------------------------------

  predicate AllDigits(s: string) {
    forall i | 0 <= i < |s| :: IsDigit(s[i])
  }

  function DigitsValue(s: string): nat
    requires AllDigits(s)
  {
    if s == [] then 0 else DigitsValue(s[..|s| - 1]) * 10 + (s[|s| - 1] as int - '0' as int)
  }

  const IntMin: int := -0x8000_0000
  const IntMax: int := 0x7FFF_FFFF

  /**
   * `Integer.parseInt(s)`: an optional sign followed by at least one decimal
   * digit, with a value in the 32-bit range; None stands for the
   * NumberFormatException.
   */
  function ParseInt(s: string): Option<int> {
    if s == [] then None
    else
      var digits := if s[0] == '-' || s[0] == '+' then s[1..] else s;
      if digits == [] || !AllDigits(digits) then None
      else
        var v: int := if s[0] == '-' then -(DigitsValue(digits) as int) else DigitsValue(digits);
        if IntMin <= v <= IntMax then Some(v) else None
  }

  /** A string `parseInt` accepts is never blank. */
  lemma ParsedIsNotBlank(s: string)
    requires ParseInt(s).Some?
    ensures Trim(s) != []
  {
    var digits := if s[0] == '-' || s[0] == '+' then s[1..] else s;
    var k := if s[0] == '-' || s[0] == '+' then 1 else 0;
    assert IsDigit(digits[0]) && s[k] == digits[0];
    TrimEmptyIffBlank(s);
  }
}
