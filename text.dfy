/**
 * The text normalisation the evaluator applies before comparing answers:
 * `toLowerCase`, `trim`, `split(/\s+/)` and the token filter `w.length > 2`.
 */
module Text {

  /** A character JavaScript's `\s` and `String.prototype.trim` treat as white space
      (the WhiteSpace and LineTerminator code points). */
  predicate IsSpace(c: char): (b: bool)
    ensures c == ' ' || c == '\t' || c == '\n' || c == '\r' ==> b
    ensures b ==> !('A' <= c <= 'Z') && !('a' <= c <= 'z') && !('0' <= c <= '9')
  {
    c == ' ' || c == '\t' || c == '\n' || c == '\r' || c == '\U{000B}' || c == '\U{000C}' ||
    c == '\U{00A0}' || c == '\U{1680}' || ('\U{2000}' <= c <= '\U{200A}') ||
    c == '\U{2028}' || c == '\U{2029}' || c == '\U{202F}' || c == '\U{205F}' ||
    c == '\U{3000}' || c == '\U{FEFF}'
  }

  predicate AllSpace(s: string) {
    forall i :: 0 <= i < |s| ==> IsSpace(s[i])
  }

  predicate NoSpace(s: string) {
    forall i :: 0 <= i < |s| ==> !IsSpace(s[i])
  }

  /** `toLowerCase` on one character, for the ASCII letters. */
  function LowerChar(c: char): (d: char)
    ensures IsSpace(d) <==> IsSpace(c)
    ensures 'A' <= c <= 'Z' ==> 'a' <= d <= 'z' && d as int - 'a' as int == c as int - 'A' as int
    ensures !('A' <= c <= 'Z') ==> d == c
  {
    if 'A' <= c <= 'Z' then (c as int + 32) as char else c
  }

  /** `toLowerCase`, one character at a time. */
  function ToLower(s: string): (r: string)
    ensures |r| == |s|
  {
    seq(|s|, i requires 0 <= i < |s| => LowerChar(s[i]))
  }

  /** `trimStart`: drops the leading white space. */
  function TrimStart(s: string): (r: string)
    ensures |r| <= |s| && r == s[|s| - |r|..]
    ensures AllSpace(s[..|s| - |r|])
    ensures r == [] || !IsSpace(r[0])
  {
    if s != [] && IsSpace(s[0]) then
      var r := TrimStart(s[1..]);
      assert s[1..][|s| - 1 - |r|..] == s[|s| - |r|..];
      assert forall i :: 1 <= i < |s| - |r| ==> s[i] == s[1..][..|s| - 1 - |r|][i - 1];
      r
    else s
  }

  /** `trimEnd`: drops the trailing white space. */
  function TrimEnd(s: string): (r: string)
    ensures |r| <= |s| && r == s[..|r|]
    ensures AllSpace(s[|r|..])
    ensures r == [] || !IsSpace(r[|r| - 1])
  {
    if s != [] && IsSpace(s[|s| - 1]) then TrimEnd(s[..|s| - 1]) else s
  }

  /** `trim`: the string without its leading and trailing white space. */
  function Trim(s: string): (r: string)
    ensures |r| <= |s|
    ensures r == [] <==> AllSpace(s)
    ensures r == [] || (!IsSpace(r[0]) && !IsSpace(r[|r| - 1]))
  {
    TrimShape(s);
    TrimEnd(TrimStart(s))
  }

  lemma TrimShape(s: string)
    ensures var r := TrimEnd(TrimStart(s));
      (r == [] <==> AllSpace(s)) && (r == [] || (!IsSpace(r[0]) && !IsSpace(r[|r| - 1])))
  {
    TrimBlank(s);
    var t := TrimStart(s);
    var r := TrimEnd(t);
    if r != [] {
      assert r[0] == t[0];
    }
  }

  lemma TrimBlank(s: string)
    ensures TrimEnd(TrimStart(s)) == [] <==> AllSpace(s)
  {
    if AllSpace(s) {
      TrimStartOfSpace(s);
    }
    TrimEndEmpty(TrimStart(s));
    TrimStartEmpty(s);
  }

  lemma TrimEndEmpty(t: string)
    ensures TrimEnd(t) == [] ==> AllSpace(t)
  {
    if TrimEnd(t) == [] {
      assert t[0..] == t;
    }
  }

  lemma TrimStartEmpty(s: string)
    ensures TrimStart(s) == [] ==> AllSpace(s)
  {
    if TrimStart(s) == [] {
      assert s[..|s|] == s;
    }
  }

  /** The comparison form of an answer: `text.toLowerCase().trim()`. */
  function Normalize(s: string): (r: string)
    ensures |r| <= |s|
    ensures r == [] || (!IsSpace(r[0]) && !IsSpace(r[|r| - 1]))
  {
    Trim(ToLower(s))
  }

  /** No character of `s` is an upper-case ASCII letter. */
  predicate NoCapital(s: string) {
    forall i :: 0 <= i < |s| ==> !('A' <= s[i] <= 'Z')
  }

  /** Lower-casing keeps white space where it was and leaves no capital letter. */
  lemma ToLowerShape(s: string)
    ensures forall i :: 0 <= i < |s| ==> (IsSpace(ToLower(s)[i]) <==> IsSpace(s[i]))
    ensures NoCapital(ToLower(s))
  {
  }

  /**
   * The normalised answer is empty exactly for a blank text; otherwise it
   * starts and ends with a non-space, and it holds no capital letter.
   */
  lemma NormalizeShape(s: string)
    ensures var r := Normalize(s);
      && (r == [] <==> AllSpace(s))
      && (r == [] || (!IsSpace(r[0]) && !IsSpace(r[|r| - 1])))
      && NoCapital(r)
  {
    var l := ToLower(s);
    ToLowerShape(s);
    assert AllSpace(l) <==> AllSpace(s);
    TrimKeepsLower(l);
  }

  /** `trim` only drops characters, so a text without capitals stays without them. */
  lemma TrimKeepsLower(l: string)
    requires NoCapital(l)
    ensures NoCapital(Trim(l))
  {
    var t := TrimStart(l);
    DropKeepsLower(l, |l| - |t|);
    TakeKeepsLower(t, |TrimEnd(t)|);
  }

  lemma DropKeepsLower(l: string, n: int)
    requires NoCapital(l) && 0 <= n <= |l|
    ensures NoCapital(l[n..])
  {
    forall i | 0 <= i < |l| - n ensures !('A' <= l[n..][i] <= 'Z') {
      assert l[n..][i] == l[n + i];
    }
  }

  lemma TakeKeepsLower(l: string, n: int)
    requires NoCapital(l) && 0 <= n <= |l|
    ensures NoCapital(l[..n])
  {
    forall i | 0 <= i < n ensures !('A' <= l[..n][i] <= 'Z') {
      assert l[..n][i] == l[i];
    }
  }

  /** The longest prefix of `s` without white space. */
  function LeadingWord(s: string): (w: string)
    ensures |w| <= |s| && w == s[..|w|]
    ensures NoSpace(w)
    ensures |w| < |s| ==> IsSpace(s[|w|])
  {
    if s == [] || IsSpace(s[0]) then [] else [s[0]] + LeadingWord(s[1..])
  }

  /**
   * `s.split(/\s+/)`: the pieces between runs of white space. A leading or a
   * trailing run yields an empty first or last piece, and "" splits into [""].
   */
  function Split(s: string): (pieces: seq<string>)
    ensures |pieces| >= 1
    ensures forall p :: p in pieces ==> NoSpace(p)
    decreases |s|
  {
    var w := LeadingWord(s);
    var rest := s[|w|..];
    if rest == [] then [w]
    else
      var next := TrimStart(rest);
      assert |next| < |rest| by { assert IsSpace(rest[0]); }
      [w] + Split(next)
  }

  /** `new Set(text.split(/\s+/).filter(w => w.length > 2))`. */
  function Tokens(s: string): (words: set<string>)
    ensures forall w :: w in words ==> |w| > 2 && NoSpace(w)
  {
    set w | w in Split(s) && |w| > 2
  }

  // ---- What `split` and the token filter compute ----

  /** The pieces joined back together with the separating runs between them. */
  function Join(pieces: seq<string>, gaps: seq<string>): string
    requires |gaps| + 1 == |pieces|
    decreases |gaps|
  {
    if |gaps| == 0 then pieces[0] else pieces[0] + gaps[0] + Join(pieces[1..], gaps[1..])
  }

  /**
   * `s` is `pieces` separated by `gaps`: the pieces hold no white space, only
   * the first and the last may be empty, and every gap is a non-empty run of
   * white space.
   */
  ghost predicate Splitting(s: string, pieces: seq<string>, gaps: seq<string>) {
    && |gaps| + 1 == |pieces|
    && (forall k :: 0 <= k < |pieces| ==> NoSpace(pieces[k]))
    && (forall k :: 0 < k < |pieces| - 1 ==> pieces[k] != [])
    && (forall k :: 0 <= k < |gaps| ==> gaps[k] != [] && AllSpace(gaps[k]))
    && Join(pieces, gaps) == s
  }

  /** `split` cuts `s` at its white-space runs: joined back with them, the pieces give `s`. */
  lemma {:induction false} SplitRebuilds(s: string)
    ensures exists gaps :: Splitting(s, Split(s), gaps)
    decreases |s|
  {
    var w := LeadingWord(s);
    var rest := s[|w|..];
    if rest == [] {
      SplittingOfWord(s);
    } else {
      var gap, next := SplitGap(s);
      SplitRebuilds(next);
      var gaps :| Splitting(next, Split(next), gaps);
      SplitHead(next);
      SplittingCons(s, Split(s), w, gap, next, Split(next), gaps);
    }
  }

  /** `s` is its leading word, the white-space run after it, then the text `split` goes on with. */
  lemma SplitGap(s: string) returns (gap: string, next: string)
    requires s[|LeadingWord(s)|..] != []
    ensures s == LeadingWord(s) + gap + next && |next| < |s|
    ensures gap != [] && AllSpace(gap) && (next == [] || !IsSpace(next[0]))
    ensures Split(s) == [LeadingWord(s)] + Split(next)
  {
    var w := LeadingWord(s);
    next := TrimStart(s[|w|..]);
    var k := |s| - |next|;
    GapSpaces(s, next, k);
    SplitUnfold(s);
    gap := s[|w|..k];
    ThreeSlices(s, |w|, k);
    SliceAllSpace(s, |w|, k);
  }

  /** Text without white space splits into itself alone. */
  lemma SplittingOfWord(s: string)
    requires s[|LeadingWord(s)|..] == []
    ensures Splitting(s, Split(s), [])
  {
    var w := LeadingWord(s);
    assert s == w;
    assert Split(s) == [w];
    assert Join([w], []) == w;
  }

  lemma SliceAllSpace(s: string, a: int, b: int)
    requires 0 <= a <= b <= |s| && forall i :: a <= i < b ==> IsSpace(s[i])
    ensures AllSpace(s[a..b])
  {
    forall x | 0 <= x < b - a ensures IsSpace(s[a..b][x]) {
      assert s[a..b][x] == s[a + x];
    }
  }

  /** Such a decomposition is unique, so it is the one `split` returns. */
  lemma {:induction false} SplitUnique(s: string, pieces: seq<string>, gaps: seq<string>)
    requires Splitting(s, pieces, gaps)
    ensures Split(s) == pieces
    decreases |gaps|
  {
    if |gaps| == 0 {
      LeadingWordOf(s, []);
      assert s + [] == s;
      assert s[|s|..] == [];
    } else {
      var p, g := pieces[0], gaps[0];
      var tail := Join(pieces[1..], gaps[1..]);
      SplittingTail(s, pieces, gaps);
      JoinStart(pieces[1..], gaps[1..]);
      SplitOfCons(p, g, tail);
      SplitUnique(tail, pieces[1..], gaps[1..]);
      ConsSlice(pieces);
    }
  }

  /** A word, a run of white space, then text that does not start with white space: `split` takes the word first. */
  lemma SplitOfCons(p: string, g: string, tail: string)
    requires NoSpace(p) && g != [] && AllSpace(g) && (tail == [] || !IsSpace(tail[0]))
    ensures Split(p + g + tail) == [p] + Split(tail)
  {
    var s := p + g + tail;
    var rest := g + tail;
    assert s == p + rest;
    LeadingWordOf(p, rest);
    assert s[|p|..] == rest;
    TrimStartPadded(g, tail);
    TrimStartOfNonSpace(tail);
    SplitUnfold(s);
  }

  lemma ConsSlice(xs: seq<string>)
    requires |xs| > 0
    ensures xs == [xs[0]] + xs[1..]
  {
  }

  /** A piece after the first is a piece of the split of what follows the first white-space run. */
  lemma PieceInTail(s: string, w: string)
    requires w in Split(s) && w != LeadingWord(s)
    ensures s[|LeadingWord(s)|..] != []
    ensures w in Split(TrimStart(s[|LeadingWord(s)|..]))
  {
    if s[|LeadingWord(s)|..] != [] {
      SplitUnfold(s);
    }
  }

  /** The leading word, when not empty, is a maximal run. */
  lemma LeadingWordIsWord(s: string)
    requires LeadingWord(s) != []
    ensures WordAt(s, 0, |LeadingWord(s)|) && LeadingWord(s) == s[0..|LeadingWord(s)|]
  {
  }

  /** A maximal run of what follows the first white-space run is a maximal run of `s`. */
  lemma LiftWord(s: string, next: string, k: int, i: int, j: int)
    requires s[|LeadingWord(s)|..] != []
    requires next == TrimStart(s[|LeadingWord(s)|..]) && k == |s| - |next|
    requires WordAt(next, i, j)
    ensures WordAt(s, i + k, j + k) && next[i..j] == s[i + k..j + k]
  {
    GapAfterWord(s, next, k);
    ShiftedWord(s, k, next, i, j);
  }

  /** One step of `split`: the leading word, then the split of what follows the white space after it. */
  lemma SplitStep(s: string, next: string, k: int)
    requires s[|LeadingWord(s)|..] != []
    requires next == TrimStart(s[|LeadingWord(s)|..]) && k == |s| - |next|
    ensures |LeadingWord(s)| < k <= |s| && next == s[k..] && IsSpace(s[k - 1])
    ensures Split(s) == [LeadingWord(s)] + Split(next)
  {
    SplitUnfold(s);
    GapAfterWord(s, next, k);
  }

  lemma SplitUnfold(s: string)
    requires s[|LeadingWord(s)|..] != []
    ensures Split(s) == [LeadingWord(s)] + Split(TrimStart(s[|LeadingWord(s)|..]))
  {
  }

  /** The white space after the leading word ends at `k`, where the rest of the split starts. */
  lemma GapAfterWord(s: string, next: string, k: int)
    requires s[|LeadingWord(s)|..] != []
    requires next == TrimStart(s[|LeadingWord(s)|..]) && k == |s| - |next|
    ensures |LeadingWord(s)| < k <= |s| && next == s[k..] && IsSpace(s[k - 1])
  {
    GapSpaces(s, next, k);
  }

  lemma GapSpaces(s: string, next: string, k: int)
    requires s[|LeadingWord(s)|..] != []
    requires next == TrimStart(s[|LeadingWord(s)|..]) && k == |s| - |next|
    ensures |LeadingWord(s)| < k <= |s| && next == s[k..]
    ensures forall i :: |LeadingWord(s)| <= i < k ==> IsSpace(s[i])
  {
    var w := LeadingWord(s);
    var rest := s[|w|..];
    assert IsSpace(rest[0]);
    TrimStartShrinks(rest);
    SuffixAfterTrim(s, |w|, next, k);
  }

  /** Trimming the white space at the start of `s[n..]` leaves a suffix of `s`, past white space only. */
  lemma SuffixAfterTrim(s: string, n: int, next: string, k: int)
    requires 0 <= n <= |s| && next == TrimStart(s[n..]) && k == |s| - |next|
    ensures n <= k && next == s[k..]
    ensures forall i :: n <= i < k ==> IsSpace(s[i])
  {
    var rest := s[n..];
    var m := |rest| - |next|;
    assert AllSpace(rest[..m]) && next == rest[m..];
    DropBoth(s, n, m, k);
    SpacesOfSlice(s, n, m, k);
  }

  lemma DropBoth(s: string, n: int, m: int, k: int)
    requires 0 <= n <= |s| && 0 <= m <= |s| - n && k == n + m
    ensures s[n..][m..] == s[k..]
  {
  }

  lemma SpacesOfSlice(s: string, n: int, m: int, k: int)
    requires 0 <= n <= |s| && 0 <= m <= |s| - n && k == n + m && AllSpace(s[n..][..m])
    ensures forall i :: n <= i < k ==> IsSpace(s[i])
  {
    forall i | n <= i < k ensures IsSpace(s[i]) {
      assert s[i] == s[n..][..m][i - n];
    }
  }

  lemma SliceOfSuffix(s: string, k: int, i: int, j: int)
    requires 0 <= k <= |s| && 0 <= i <= j <= |s| - k
    ensures s[k..][i..j] == s[i + k..j + k]
  {
  }

  lemma ThreeSlices(s: string, a: int, b: int)
    requires 0 <= a <= b <= |s|
    ensures s == s[..a] + s[a..b] + s[b..]
  {
  }

  lemma TrimStartShrinks(r: string)
    requires r != [] && IsSpace(r[0])
    ensures |TrimStart(r)| < |r|
  {
  }

  lemma PrefixNoSpace(s: string, n: int)
    requires 0 <= n <= |s| && NoSpace(s[..n])
    ensures forall x :: 0 <= x < n ==> !IsSpace(s[x])
  {
    forall x | 0 <= x < n ensures !IsSpace(s[x]) { assert s[x] == s[..n][x]; }
  }

  lemma SplitHead(t: string)
    requires t == [] || !IsSpace(t[0])
    ensures |Split(t)| == 1 || Split(t)[0] != []
  {
    if t == [] {
      assert Split(t) == [[]];
    }
  }

  lemma SplittingCons(s: string, pieces: seq<string>, w: string, gap: string, next: string, ps: seq<string>, gs: seq<string>)
    requires Splitting(next, ps, gs) && NoSpace(w) && gap != [] && AllSpace(gap)
    requires |ps| == 1 || ps[0] != []
    requires s == w + gap + next && pieces == [w] + ps
    ensures Splitting(s, pieces, [gap] + gs)
  {
    var gaps := [gap] + gs;
    assert pieces[1..] == ps && gaps[1..] == gs;
    forall k | 0 < k < |pieces| ensures pieces[k] == ps[k - 1] { }
    forall k | 0 < k < |gaps| ensures gaps[k] == gs[k - 1] { }
  }

  lemma SplittingTail(s: string, pieces: seq<string>, gaps: seq<string>)
    requires Splitting(s, pieces, gaps) && |gaps| > 0
    ensures var tail := Join(pieces[1..], gaps[1..]);
      && Splitting(tail, pieces[1..], gaps[1..])
      && s == pieces[0] + gaps[0] + tail
      && NoSpace(pieces[0]) && gaps[0] != [] && IsSpace(gaps[0][0])
      && (|gaps| == 1 || pieces[1] != [])
  {
    var ps, gs := pieces[1..], gaps[1..];
    forall k | 0 <= k < |ps| ensures ps[k] == pieces[k + 1] { }
    forall k | 0 <= k < |gs| ensures gs[k] == gaps[k + 1] { }
  }

  /** A join whose first piece is non-empty, or the only one, does not start with white space. */
  lemma JoinStart(ps: seq<string>, gs: seq<string>)
    requires |gs| + 1 == |ps| && NoSpace(ps[0]) && (|gs| == 0 || ps[0] != [])
    ensures Join(ps, gs) == [] || !IsSpace(Join(ps, gs)[0])
  {
    if |gs| > 0 {
      assert Join(ps, gs)[0] == ps[0][0];
    }
  }

  /** A word followed by white space or by nothing is the leading word. */
  lemma {:induction false} LeadingWordOf(p: string, t: string)
    requires NoSpace(p) && (t == [] || IsSpace(t[0]))
    ensures LeadingWord(p + t) == p
    decreases |p|
  {
    if p == [] {
      assert p + t == t;
    } else {
      assert (p + t)[0] == p[0];
      assert (p + t)[1..] == p[1..] + t;
      assert NoSpace(p[1..]) by {
        forall i | 0 <= i < |p| - 1 ensures !IsSpace(p[1..][i]) { assert p[1..][i] == p[i + 1]; }
      }
      LeadingWordOf(p[1..], t);
      assert p == [p[0]] + p[1..];
    }
  }

  lemma TrimStartOfNonSpace(t: string)
    requires t == [] || !IsSpace(t[0])
    ensures TrimStart(t) == t
  {
  }

  /** `s[i..j]` is a maximal run of non-white-space characters. */
  ghost predicate WordAt(s: string, i: int, j: int) {
    && 0 <= i < j <= |s|
    && NoSpace(s[i..j])
    && (i == 0 || IsSpace(s[i - 1]))
    && (j == |s| || IsSpace(s[j]))
  }

  /** The non-empty pieces of `split` are exactly the maximal runs of non-white-space characters. */
  lemma SplitWords(s: string, w: string)
    requires w != []
    ensures w in Split(s) <==> exists i, j :: WordAt(s, i, j) && w == s[i..j]
  {
    if w in Split(s) {
      PiecesAreWords(s, w);
    }
    if exists i, j :: WordAt(s, i, j) && w == s[i..j] {
      var i, j :| WordAt(s, i, j) && w == s[i..j];
      WordsArePieces(s, i, j);
    }
  }

  lemma {:induction false} PiecesAreWords(s: string, w: string)
    requires w in Split(s) && w != []
    ensures exists i, j :: WordAt(s, i, j) && w == s[i..j]
    decreases |s|
  {
    var w0 := LeadingWord(s);
    if w == w0 {
      LeadingWordIsWord(s);
    } else {
      PieceInTail(s, w);
      var next := TrimStart(s[|w0|..]);
      PiecesAreWords(next, w);
      var i, j :| WordAt(next, i, j) && w == next[i..j];
      var k := |s| - |next|;
      LiftWord(s, next, k, i, j);
      assert WordAt(s, i + k, j + k) && w == s[i + k..j + k];
    }
  }

  lemma {:induction false} WordsArePieces(s: string, i: int, j: int)
    requires WordAt(s, i, j)
    ensures s[i..j] in Split(s)
    decreases |s|
  {
    if i == 0 {
      FirstWord(s, j);
    } else {
      var next, i', j' := WordStep(s, i, j);
      WordsArePieces(next, i', j');
    }
  }

  /** A run past the first word is a run of the rest of the split, shifted back by `k`. */
  lemma WordStep(s: string, i: int, j: int) returns (next: string, i': int, j': int)
    requires WordAt(s, i, j) && i > 0
    ensures |next| < |s| && WordAt(next, i', j') && next[i'..j'] == s[i..j]
    ensures Split(s) == [LeadingWord(s)] + Split(next)
  {
    WordPastGap(s, i, j);
    next := TrimStart(s[|LeadingWord(s)|..]);
    var k := |s| - |next|;
    SplitStep(s, next, k);
    i', j' := DropWord(s, next, k, i, j);
  }

  /** A maximal run starting at 0 is the leading word, the first piece of `split`. */
  lemma FirstWord(s: string, j: int)
    requires WordAt(s, 0, j)
    ensures s[0..j] == LeadingWord(s) == Split(s)[0]
  {
    assert s == s[..j] + s[j..];
    assert s[j..] == [] || s[j..][0] == s[j];
    LeadingWordOf(s[..j], s[j..]);
  }

  /** A run that does not start at 0 lies beyond the leading word and the white space after it. */
  lemma WordPastGap(s: string, i: int, j: int)
    requires WordAt(s, i, j) && i > 0
    ensures s[|LeadingWord(s)|..] != []
    ensures |s| - |TrimStart(s[|LeadingWord(s)|..])| <= i
  {
    var w0 := LeadingWord(s);
    assert !IsSpace(s[i]) by { assert s[i] == s[i..j][0]; }
    PrefixNoSpace(s, |w0|);
    assert |w0| < i;
    var next := TrimStart(s[|w0|..]);
    GapSpaces(s, next, |s| - |next|);
  }

  lemma ShiftedWord(s: string, k: int, next: string, i: int, j: int)
    requires 0 < k <= |s| && IsSpace(s[k - 1]) && next == s[k..] && WordAt(next, i, j)
    ensures WordAt(s, i + k, j + k) && next[i..j] == s[i + k..j + k]
  {
    WordShift(s, k, i, j);
    SliceOfSuffix(s, k, i, j);
  }

  /** A run beyond white space at `k - 1` is a run of `s[k..]`, shifted back by `k`. */
  lemma DropWord(s: string, next: string, k: int, i: int, j: int) returns (i': int, j': int)
    requires WordAt(s, i, j) && 0 < k <= i && IsSpace(s[k - 1]) && next == s[k..]
    ensures i' + k == i && j' + k == j && WordAt(next, i', j') && next[i'..j'] == s[i..j]
  {
    i', j' := i - k, j - k;
    WordShift(s, k, i', j');
    SliceOfSuffix(s, k, i', j');
  }

  /** Runs of a suffix that follows white space are runs of the whole text, shifted. */
  lemma WordShift(s: string, k: int, i: int, j: int)
    requires 0 < k <= |s| && IsSpace(s[k - 1]) && 0 <= i
    ensures WordAt(s[k..], i, j) <==> WordAt(s, i + k, j + k)
  {
    var t := s[k..];
    if i < j <= |t| {
      SliceOfSuffix(s, k, i, j);
      if i > 0 { assert t[i - 1] == s[i + k - 1]; }
      if j < |t| { assert t[j] == s[j + k]; }
    }
  }

  /** The tokens are exactly the maximal runs of non-white-space characters longer than two. */
  lemma TokensAreWords(s: string, w: string)
    ensures w in Tokens(s) <==> |w| > 2 && exists i, j :: WordAt(s, i, j) && w == s[i..j]
  {
    if w != [] {
      SplitWords(s, w);
    }
  }

  // ---- Lemmas about the normaliser ----

  lemma {:induction false} ToLowerIdempotent(s: string)
    ensures ToLower(ToLower(s)) == ToLower(s)
  {
    forall i | 0 <= i < |s| ensures ToLower(ToLower(s))[i] == ToLower(s)[i] {
      var c := s[i];
      assert ToLower(s)[i] == LowerChar(c);
    }
  }

  lemma ToLowerAppend(a: string, b: string)
    ensures ToLower(a + b) == ToLower(a) + ToLower(b)
  {
    assert forall i :: 0 <= i < |a| ==> (a + b)[i] == a[i];
    assert forall i :: |a| <= i < |a| + |b| ==> (a + b)[i] == b[i - |a|];
  }

  lemma ToLowerOfSpace(s: string)
    requires AllSpace(s)
    ensures ToLower(s) == s && AllSpace(ToLower(s))
  {
  }

  lemma {:induction false} TrimStartPadded(ws: string, t: string)
    requires AllSpace(ws)
    ensures TrimStart(ws + t) == TrimStart(t)
    decreases |ws|
  {
    if ws != [] {
      assert (ws + t)[1..] == ws[1..] + t;
      TrimStartPadded(ws[1..], t);
    } else {
      assert ws + t == t;
    }
  }

  lemma {:induction false} TrimEndPadded(t: string, ws: string)
    requires AllSpace(ws)
    ensures TrimEnd(t + ws) == TrimEnd(t)
    decreases |ws|
  {
    if ws != [] {
      assert (t + ws)[..|t + ws| - 1] == t + ws[..|ws| - 1];
      TrimEndPadded(t, ws[..|ws| - 1]);
    } else {
      assert t + ws == t;
    }
  }

  /** Trailing white space survives `trimStart` unless the whole string is white space. */
  lemma {:induction false} TrimStartKeepsTail(t: string, ws: string)
    requires AllSpace(ws)
    ensures TrimStart(t + ws) == if AllSpace(t) then [] else TrimStart(t) + ws
    decreases |t|
  {
    if t == [] {
      assert t + ws == ws;
      TrimStartOfSpace(ws);
    } else if IsSpace(t[0]) {
      assert (t + ws)[1..] == t[1..] + ws;
      TrimStartKeepsTail(t[1..], ws);
      assert AllSpace(t) <==> AllSpace(t[1..]) by {
        if AllSpace(t[1..]) {
          forall i | 0 <= i < |t| ensures IsSpace(t[i]) { if i > 0 { assert t[i] == t[1..][i - 1]; } }
        }
      }
    } else {
      assert (t + ws)[0] == t[0];
    }
  }

  lemma {:induction false} TrimStartOfSpace(s: string)
    requires AllSpace(s)
    ensures TrimStart(s) == []
  {
  }

  /** Padding an answer with white space on either side does not change its trimmed form. */
  lemma TrimPadded(ws1: string, t: string, ws2: string)
    requires AllSpace(ws1) && AllSpace(ws2)
    ensures Trim(ws1 + t + ws2) == Trim(t)
  {
    assert ws1 + t + ws2 == ws1 + (t + ws2);
    TrimStartPadded(ws1, t + ws2);
    TrimStartKeepsTail(t, ws2);
    if AllSpace(t) {
      TrimStartOfSpace(t);
    } else {
      TrimEndPadded(TrimStart(t), ws2);
    }
  }

  /** Normalisation ignores case and surrounding white space. */
  lemma NormalizePadded(ws1: string, s: string, ws2: string)
    requires AllSpace(ws1) && AllSpace(ws2)
    ensures Normalize(ws1 + s + ws2) == Normalize(s)
    ensures Normalize(ToLower(s)) == Normalize(s)
  {
    ToLowerAppend(ws1 + s, ws2);
    ToLowerAppend(ws1, s);
    ToLowerOfSpace(ws1);
    ToLowerOfSpace(ws2);
    TrimPadded(ws1, ToLower(s), ws2);
    ToLowerIdempotent(s);
  }

  /** An empty or white-space-only text has no tokens. */
  lemma TokensOfBlank(s: string)
    requires AllSpace(s)
    ensures Normalize(s) == [] && Tokens(Normalize(s)) == {}
  {
    ToLowerOfSpace(s);
    assert Split([]) == [[]];
  }

  /** A word without white space normalises to its lower-case form. */
  lemma NormalizeOfWord(w: string)
    requires NoSpace(w)
    ensures Normalize(w) == ToLower(w)
  {
    var l := ToLower(w);
    assert NoSpace(l);
    assert TrimStart(l) == l;
    assert TrimEnd(l) == l;
  }
}
