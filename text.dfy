/** The JavaScript string operations the application relies on, over
    `seq<char>`: `toLowerCase` (ASCII letters only), `includes`, `trim`,
    `split(' ')` and `split(/\s+/)`. */
module Text {

  // ---------------------------------------------------------------------
  // Characters
  // ---------------------------------------------------------------------

  /** Lower-cases an ASCII capital letter; every other character is kept. */
  function Lower(c: char): char {
    if 'A' <= c <= 'Z' then (c as int + 32) as char else c
  }

  /** The characters matched by `\s` and stripped by `trim`: the
      ECMAScript WhiteSpace and LineTerminator code points. */
  predicate IsSpace(c: char) {
    var n := c as int;
    n == 0x09 || n == 0x0A || n == 0x0B || n == 0x0C || n == 0x0D || n == 0x20 ||
    n == 0xA0 || n == 0x1680 || (0x2000 <= n <= 0x200A) || n == 0x2028 ||
    n == 0x2029 || n == 0x202F || n == 0x205F || n == 0x3000 || n == 0xFEFF
  }

  /** The characters a regular expression's `\b` treats as word characters
      (`[A-Za-z0-9_]`). */
  predicate IsWordChar(c: char) {
    ('a' <= c <= 'z') || ('A' <= c <= 'Z') || ('0' <= c <= '9') || c == '_'
  }

  lemma LowerFacts(c: char)
    ensures IsSpace(Lower(c)) == IsSpace(c)
    ensures IsWordChar(Lower(c)) == IsWordChar(c)
    ensures Lower(Lower(c)) == Lower(c)
    ensures Lower(c) == ' ' <==> c == ' '
  {
  }

  // ---------------------------------------------------------------------
  // toLowerCase
  // ---------------------------------------------------------------------

  /** `s.toLowerCase()`, restricted to ASCII letters. */
  function ToLower(s: string): (r: string)
    ensures |r| == |s|
    ensures forall i :: 0 <= i < |s| ==> r[i] == Lower(s[i])
  {
    if s == [] then [] else [Lower(s[0])] + ToLower(s[1..])
  }

  /** A string without capital letters is its own lower-case form. */
  lemma {:induction false} ToLowerWithoutCapitals(s: string)
    requires forall c :: c in s ==> !('A' <= c <= 'Z')
    ensures ToLower(s) == s
  {
    if s != [] {
      assert s[0] in s;
      assert forall c :: c in s[1..] ==> c in s;
      ToLowerWithoutCapitals(s[1..]);
    }
  }

  /** Lower-casing twice is lower-casing once. */
  lemma ToLowerIdempotent(s: string)
    ensures ToLower(ToLower(s)) == ToLower(s)
  {
    var once := ToLower(s);
    forall i | 0 <= i < |s| ensures ToLower(once)[i] == once[i] {
      LowerFacts(s[i]);
    }
  }

  // ---------------------------------------------------------------------
  // includes
  // ---------------------------------------------------------------------

  /** `t` occurs in `s` starting at index `i`. */
  predicate OccursAt(s: string, t: string, i: int) {
    0 <= i && i + |t| <= |s| && s[i..i + |t|] == t
  }

  /** `s.startsWith(t)`, compared character by character. */
  function StartsWith(s: string, t: string): bool {
    t == [] || (s != [] && s[0] == t[0] && StartsWith(s[1..], t[1..]))
  }

  /** `s.includes(t)`, trying the start positions of `s` from the left. */
  function Contains(s: string, t: string): bool {
    StartsWith(s, t) || (s != [] && Contains(s[1..], t))
  }

  lemma {:induction false} StartsWithIsPrefix(s: string, t: string)
    ensures StartsWith(s, t) <==> |t| <= |s| && s[..|t|] == t
  {
    if t != [] && s != [] && s[0] == t[0] {
      StartsWithIsPrefix(s[1..], t[1..]);
      assert |t| <= |s| ==> s[..|t|] == [s[0]] + s[1..][..|t| - 1];
      assert t == [t[0]] + t[1..];
    }
  }

  lemma OccursShift(s: string, t: string, i: int)
    requires s != [] && 0 <= i
    ensures OccursAt(s[1..], t, i) <==> OccursAt(s, t, i + 1)
  {
    if 0 <= i && i + |t| <= |s| - 1 {
      assert s[1..][i..i + |t|] == s[i + 1..i + 1 + |t|];
    }
  }

  /** `s.includes(t)` holds exactly when `t` occurs in `s` at some index. */
  lemma {:induction false} ContainsIsOccurrence(s: string, t: string)
    ensures Contains(s, t) <==> exists i :: OccursAt(s, t, i)
  {
    StartsWithIsPrefix(s, t);
    if StartsWith(s, t) {
      assert OccursAt(s, t, 0);
    } else if s == [] {
      assert forall i :: !OccursAt(s, t, i);
    } else {
      ContainsIsOccurrence(s[1..], t);
      forall i | 0 <= i ensures OccursAt(s[1..], t, i) <==> OccursAt(s, t, i + 1) {
        OccursShift(s, t, i);
      }
      forall i | 0 < i ensures OccursAt(s, t, i) <==> OccursAt(s[1..], t, i - 1) {
        OccursShift(s, t, i - 1);
      }
      assert !OccursAt(s, t, 0);
    }
  }

  /** `ts.some(t => s.includes(t))`. */
  function ContainsAny(s: string, ts: seq<string>): (r: bool)
    ensures r <==> exists k :: 0 <= k < |ts| && Contains(s, ts[k])
  {
    if ts == [] then false
    else Contains(s, ts[0]) || ContainsAny(s, ts[1..])
  }

  /** `ts.some(t => s.includes(t))` holds exactly when one of `ts` occurs
      in `s` at some index. */
  lemma ContainsAnyIsOccurrence(s: string, ts: seq<string>)
    ensures ContainsAny(s, ts) <==> exists k, i :: 0 <= k < |ts| && OccursAt(s, ts[k], i)
  {
    forall k | 0 <= k < |ts| {
      ContainsIsOccurrence(s, ts[k]);
    }
    if ContainsAny(s, ts) {
      var k :| 0 <= k < |ts| && Contains(s, ts[k]);
      var i :| OccursAt(s, ts[k], i);
    }
  }

  /** A substring found in a string is found in any longer string it sits in. */
  lemma ContainsInMiddle(pre: string, t: string, post: string)
    ensures Contains(pre + t + post, t)
  {
    assert OccursAt(pre + t + post, t, |pre|);
    ContainsIsOccurrence(pre + t + post, t);
  }

  /** Containment is transitive. */
  lemma ContainsTransitive(s: string, t: string, u: string)
    requires Contains(s, t) && Contains(t, u)
    ensures Contains(s, u)
  {
    ContainsIsOccurrence(s, t);
    ContainsIsOccurrence(t, u);
    ContainsIsOccurrence(s, u);
    var i :| OccursAt(s, t, i);
    var j :| OccursAt(t, u, j);
    forall m | 0 <= m < |u| ensures s[i + j + m] == u[m] {
      assert s[i + j + m] == s[i..i + |t|][j + m] == t[j + m];
    }
    assert OccursAt(s, u, i + j);
  }

  /** Every character of a contained string occurs in the containing one. */
  lemma ContainsHasChars(s: string, t: string)
    ensures Contains(s, t) ==> forall c :: c in t ==> c in s
  {
    ContainsIsOccurrence(s, t);
    if Contains(s, t) {
      var i :| OccursAt(s, t, i);
      forall c | c in t ensures c in s {
        var m :| 0 <= m < |t| && t[m] == c;
        assert s[i + m] == s[i..i + |t|][m];
      }
    }
  }

  /** A string lacking one of the characters of `t` does not contain `t`. */
  lemma MissingChar(s: string, t: string, c: char)
    requires c in t && c !in s
    ensures !Contains(s, t)
  {
    ContainsHasChars(s, t);
  }

  /** The same, for a string none of whose characters is in `excluded`. */
  lemma MissingLetter(s: string, t: string, excluded: string, c: char)
    requires forall i :: 0 <= i < |s| ==> s[i] !in excluded
    requires c in t && c in excluded
    ensures !Contains(s, t)
  {
    MissingChar(s, t, c);
  }

  /** Lower-casing distributes over concatenation. */
  lemma ToLowerAppend(a: string, b: string)
    ensures ToLower(a + b) == ToLower(a) + ToLower(b)
  {
  }

  // ---------------------------------------------------------------------
  // split(' ')
  // ---------------------------------------------------------------------

  /** The number of occurrences of `c` in `s`. */
  function CountChar(s: string, c: char): nat {
    if s == [] then 0 else (if s[0] == c then 1 else 0) + CountChar(s[1..], c)
  }

  /** `c` occurs at least once per listed position holding it. */
  lemma {:induction false} CountCharAtLeast(s: string, c: char, ps: seq<int>)
    requires forall j :: 0 <= j < |ps| ==> 0 <= ps[j] < |s| && s[ps[j]] == c
    requires forall j, k :: 0 <= j < k < |ps| ==> ps[j] < ps[k]
    ensures CountChar(s, c) >= |ps|
    decreases |s|
  {
    if ps != [] {
      var rest := if ps[0] == 0 then ps[1..] else ps;
      var shifted := seq(|rest|, j requires 0 <= j < |rest| => rest[j] - 1);
      forall j | 0 <= j < |shifted| ensures 0 <= shifted[j] < |s| - 1 && s[1..][shifted[j]] == c {
        if ps[0] == 0 {
          assert rest[j] == ps[j + 1] && ps[0] < ps[j + 1];
        } else {
          assert rest[j] == ps[j] && (j == 0 || ps[0] < ps[j]);
        }
      }
      CountCharAtLeast(s[1..], c, shifted);
    }
  }

  /** Lower-casing keeps every space character where it is. */
  lemma {:induction false} CountSpaceToLower(s: string)
    ensures CountChar(ToLower(s), ' ') == CountChar(s, ' ')
  {
    if s != [] {
      LowerFacts(s[0]);
      assert ToLower(s)[1..] == ToLower(s[1..]);
      CountSpaceToLower(s[1..]);
    }
  }

  /** `s.split(sep)` for a one-character separator: the maximal pieces between
      separators, keeping the empty pieces before, between and after adjacent
      separators; the empty string gives one empty piece. */
  function Split(s: string, sep: char): (r: seq<string>)
    ensures |r| == CountChar(s, sep) + 1
  {
    if s == [] then [""]
    else
      var rest := Split(s[1..], sep);
      if s[0] == sep then [""] + rest
      else [[s[0]] + rest[0]] + rest[1..]
  }

  /** `pieces.join(sep)`. */
  function Join(pieces: seq<string>, sep: char): string {
    if pieces == [] then ""
    else if |pieces| == 1 then pieces[0]
    else pieces[0] + [sep] + Join(pieces[1..], sep)
  }

  /** Joining the pieces with the separator gives back the string. */
  lemma {:induction false} SplitJoin(s: string, sep: char)
    ensures Join(Split(s, sep), sep) == s
  {
    if s != [] {
      var rest := Split(s[1..], sep);
      SplitJoin(s[1..], sep);
      if s[0] == sep {
        assert Split(s, sep) == [""] + rest;
        assert s == [s[0]] + s[1..];
      } else {
        var r := Split(s, sep);
        assert r == [[s[0]] + rest[0]] + rest[1..];
        if |rest| == 1 {
          assert Join(r, sep) == [s[0]] + rest[0];
        } else {
          assert r[1..] == rest[1..];
          assert Join(r, sep) == [s[0]] + rest[0] + [sep] + Join(rest[1..], sep);
        }
      }
    }
  }

  /** A string without the separator is one piece. */
  lemma {:induction false} SplitWithoutSeparator(s: string, sep: char)
    requires sep !in s
    ensures Split(s, sep) == [s]
  {
    if s != [] {
      assert s[0] in s;
      assert forall c :: c in s[1..] ==> c in s;
      SplitWithoutSeparator(s[1..], sep);
      assert [s[0]] + s[1..] == s;
    }
  }

  /** A word of lower-case letters and underscores is its own lower-case
      form and one piece when split at spaces. */
  lemma PlainWord(s: string)
    requires forall c :: c in s ==> ('a' <= c <= 'z') || c == '_'
    ensures ToLower(s) == s
    ensures Split(s, ' ') == [s]
  {
    ToLowerWithoutCapitals(s);
    SplitWithoutSeparator(s, ' ');
  }

  /** No piece contains the separator. */
  lemma {:induction false} SplitPiecesHaveNoSeparator(s: string, sep: char)
    ensures forall k :: 0 <= k < |Split(s, sep)| ==> sep !in Split(s, sep)[k]
  {
    if s != [] {
      SplitPiecesHaveNoSeparator(s[1..], sep);
    }
  }

  // ---------------------------------------------------------------------
  // split(/\s+/)
  // ---------------------------------------------------------------------

  /** `s.split(/\s+/)`: the pieces between maximal runs of whitespace. A run
      at the start or at the end gives an empty first or last piece; the
      empty string gives one empty piece. */
  function SplitWs(s: string): (r: seq<string>)
    ensures |r| >= 1
    ensures s != [] && IsSpace(s[0]) ==> |r| >= 2
  {
    if s == [] then [""]
    else
      var rest := SplitWs(s[1..]);
      if IsSpace(s[0]) then
        (if |s| > 1 && IsSpace(s[1]) then rest else [""] + rest)
      else [[s[0]] + rest[0]] + rest[1..]
  }

  /** `s` with every whitespace character removed. */
  function RemoveSpaces(s: string): string {
    if s == [] then [] else (if IsSpace(s[0]) then [] else [s[0]]) + RemoveSpaces(s[1..])
  }

  /** The concatenation of all pieces of a sequence. */
  function Concat(pieces: seq<string>): string {
    if pieces == [] then [] else pieces[0] + Concat(pieces[1..])
  }

  /** Splitting on whitespace runs loses exactly the whitespace: the pieces
      hold no whitespace and, put back together, are `s` without its
      whitespace. */
  lemma {:induction false} SplitWsPieces(s: string)
    ensures forall k, j :: 0 <= k < |SplitWs(s)| && 0 <= j < |SplitWs(s)[k]| ==> !IsSpace(SplitWs(s)[k][j])
    ensures Concat(SplitWs(s)) == RemoveSpaces(s)
  {
    if s != [] {
      var rest := SplitWs(s[1..]);
      SplitWsPieces(s[1..]);
      if IsSpace(s[0]) {
        assert RemoveSpaces(s) == RemoveSpaces(s[1..]);
        if !(|s| > 1 && IsSpace(s[1])) {
          PiecesPrependEmpty(rest);
        }
      } else {
        assert RemoveSpaces(s) == [s[0]] + RemoveSpaces(s[1..]);
        PiecesPrependLetter(s[0], rest);
      }
    }
  }

  /** An empty first piece adds nothing to the concatenation. */
  lemma PiecesPrependEmpty(rest: seq<string>)
    requires forall k, j :: 0 <= k < |rest| && 0 <= j < |rest[k]| ==> !IsSpace(rest[k][j])
    ensures var r := [""] + rest;
      (forall k, j :: 0 <= k < |r| && 0 <= j < |r[k]| ==> !IsSpace(r[k][j])) &&
      Concat(r) == Concat(rest)
  {
    var r := [""] + rest;
    assert r[1..] == rest;
  }

  /** A letter put in front of the first piece goes in front of the
      concatenation. */
  lemma PiecesPrependLetter(c: char, rest: seq<string>)
    requires |rest| >= 1 && !IsSpace(c)
    requires forall k, j :: 0 <= k < |rest| && 0 <= j < |rest[k]| ==> !IsSpace(rest[k][j])
    ensures var r := [[c] + rest[0]] + rest[1..];
      (forall k, j :: 0 <= k < |r| && 0 <= j < |r[k]| ==> !IsSpace(r[k][j])) &&
      Concat(r) == [c] + Concat(rest)
  {
    var r := [[c] + rest[0]] + rest[1..];
    assert r[1..] == rest[1..];
    assert Concat(rest) == rest[0] + Concat(rest[1..]);
    forall k, j | 0 <= k < |r| && 0 <= j < |r[k]| ensures !IsSpace(r[k][j]) {
      if k == 0 && j > 0 {
        assert r[0][j] == rest[0][j - 1];
      } else if k > 0 {
        assert r[k] == rest[k];
      }
    }
  }

  /** `pieces[0] + gaps[0] + pieces[1] + ... + gaps[n - 1] + pieces[n]`. */
  function Interleave(pieces: seq<string>, gaps: seq<string>): string
    requires |pieces| == |gaps| + 1
  {
    if gaps == [] then pieces[0] else pieces[0] + gaps[0] + Interleave(pieces[1..], gaps[1..])
  }

  predicate AllSpace(t: string) {
    forall j :: 0 <= j < |t| ==> IsSpace(t[j])
  }

  predicate NoSpace(t: string) {
    forall j :: 0 <= j < |t| ==> !IsSpace(t[j])
  }

  /** `s` is `pieces` with a non-empty run of whitespace between each two:
      the pieces hold no whitespace, and only the first and the last may be
      empty (when `s` starts or ends with whitespace). */
  ghost predicate WsSplitting(s: string, pieces: seq<string>, gaps: seq<string>) {
    |pieces| == |gaps| + 1 && Interleave(pieces, gaps) == s &&
    SpaceRuns(gaps) && SpaceFreePieces(pieces)
  }

  /** Every gap is a non-empty run of whitespace. */
  ghost predicate SpaceRuns(gaps: seq<string>) {
    forall k :: 0 <= k < |gaps| ==> gaps[k] != [] && AllSpace(gaps[k])
  }

  /** No piece holds whitespace, and only the first and the last may be
      empty. */
  ghost predicate SpaceFreePieces(pieces: seq<string>) {
    (forall k :: 0 <= k < |pieces| ==> NoSpace(pieces[k])) &&
    (forall k :: 0 < k < |pieces| - 1 ==> pieces[k] != [])
  }

  /** The whitespace runs `split(/\s+/)` cuts out, in order. */
  ghost function WsGaps(s: string): (r: seq<string>)
    ensures |r| + 1 == |SplitWs(s)|
  {
    if s == [] then []
    else
      var rest := WsGaps(s[1..]);
      if IsSpace(s[0]) then
        (if |s| > 1 && IsSpace(s[1]) then [[s[0]] + rest[0]] + rest[1..] else [[s[0]]] + rest)
      else rest
  }

  /** Putting a character in front of the first piece puts it in front of the
      whole. */
  lemma InterleaveCons(c: char, pieces: seq<string>, gaps: seq<string>)
    requires |pieces| == |gaps| + 1
    ensures Interleave([[c] + pieces[0]] + pieces[1..], gaps) == [c] + Interleave(pieces, gaps)
  {
    var front := [[c] + pieces[0]] + pieces[1..];
    if gaps != [] {
      assert front[1..] == pieces[1..];
      assert Interleave(front, gaps) == front[0] + gaps[0] + Interleave(pieces[1..], gaps[1..]);
    }
  }

  /** The first character of a split text opens its first piece, or its
      first gap when the first piece is empty. */
  lemma SplittingFirst(t: string, pieces: seq<string>, gaps: seq<string>)
    requires WsSplitting(t, pieces, gaps)
    ensures gaps != [] ==> t != []
    ensures t != [] && pieces[0] != [] ==> t[0] == pieces[0][0]
    ensures t != [] && pieces[0] == [] ==> gaps != [] && t[0] == gaps[0][0]
  {
    if gaps != [] {
      assert t == pieces[0] + gaps[0] + Interleave(pieces[1..], gaps[1..]);
    }
  }

  /** A non-whitespace character in front of a split text starts its first
      piece. */
  lemma SplittingPrependLetter(c: char, t: string, pieces: seq<string>, gaps: seq<string>)
    requires !IsSpace(c) && WsSplitting(t, pieces, gaps)
    ensures WsSplitting([c] + t, [[c] + pieces[0]] + pieces[1..], gaps)
  {
    var front := [[c] + pieces[0]] + pieces[1..];
    InterleaveCons(c, pieces, gaps);
    assert SpaceFreePieces(front) by {
      assert NoSpace([c] + pieces[0]);
      forall k | 0 < k < |front| ensures front[k] == pieces[k] { }
    }
  }

  /** A whitespace character in front of a split text that starts with
      whitespace joins its first run. */
  lemma SplittingJoinRun(c: char, t: string, pieces: seq<string>, gaps: seq<string>)
    requires IsSpace(c) && WsSplitting(t, pieces, gaps) && t != [] && IsSpace(t[0])
    ensures gaps != [] && pieces[0] == []
    ensures WsSplitting([c] + t, pieces, [[c] + gaps[0]] + gaps[1..])
  {
    SplittingFirst(t, pieces, gaps);
    var longer := [[c] + gaps[0]] + gaps[1..];
    assert Interleave(pieces, longer) == [c] + t by {
      assert longer[1..] == gaps[1..];
    }
    assert SpaceRuns(longer) by {
      assert AllSpace([c] + gaps[0]);
      forall k | 0 < k < |longer| ensures longer[k] == gaps[k] { }
    }
  }

  /** A whitespace character in front of a split text that is empty or starts
      with a non-whitespace character is a run of its own after an empty
      first piece. */
  lemma SplittingNewRun(c: char, t: string, pieces: seq<string>, gaps: seq<string>)
    requires IsSpace(c) && WsSplitting(t, pieces, gaps) && (t == [] || !IsSpace(t[0]))
    ensures WsSplitting([c] + t, [""] + pieces, [[c]] + gaps)
  {
    SplittingFirst(t, pieces, gaps);
    var more, moreGaps := [""] + pieces, [[c]] + gaps;
    assert Interleave(more, moreGaps) == [c] + t by {
      assert more[1..] == pieces && moreGaps[1..] == gaps;
    }
    assert SpaceRuns(moreGaps) by {
      assert AllSpace([c]);
      forall k | 0 < k < |moreGaps| ensures moreGaps[k] == gaps[k - 1] { }
    }
    assert SpaceFreePieces(more) by {
      forall k | 0 < k < |more| ensures more[k] == pieces[k - 1] { }
    }
  }

  /** The pieces of `split(/\s+/)`, with the whitespace runs between them,
      give back the text. */
  lemma {:induction false} SplitWsSplitting(s: string)
    ensures WsSplitting(s, SplitWs(s), WsGaps(s))
  {
    if s == [] {
      assert Interleave([""], []) == "";
    } else {
      var t := s[1..];
      SplitWsSplitting(t);
      assert s == [s[0]] + t;
      if !IsSpace(s[0]) {
        SplittingPrependLetter(s[0], t, SplitWs(t), WsGaps(t));
      } else if |s| > 1 && IsSpace(s[1]) {
        SplittingJoinRun(s[0], t, SplitWs(t), WsGaps(t));
      } else {
        SplittingNewRun(s[0], t, SplitWs(t), WsGaps(t));
      }
    }
  }

  /** Taking the first character off a splitting whose first piece is not
      empty. */
  lemma SplittingDropLetter(s: string, pieces: seq<string>, gaps: seq<string>)
    requires WsSplitting(s, pieces, gaps) && pieces[0] != []
    ensures s != [] && s[0] == pieces[0][0] && !IsSpace(s[0])
    ensures WsSplitting(s[1..], [pieces[0][1..]] + pieces[1..], gaps)
  {
    var p := pieces[0];
    var tail := [p[1..]] + pieces[1..];
    assert [[p[0]] + tail[0]] + tail[1..] == pieces by {
      assert [p[0]] + p[1..] == p;
      assert tail[1..] == pieces[1..];
    }
    InterleaveCons(p[0], tail, gaps);
    assert SpaceFreePieces(tail) by {
      assert NoSpace(p[1..]) by {
        assert forall j :: 0 <= j < |p| - 1 ==> p[1..][j] == p[j + 1];
      }
      forall k | 0 < k < |tail| ensures tail[k] == pieces[k] { }
    }
  }

  /** Taking the first character off a splitting that starts with a run of
      at least two whitespace characters. */
  lemma SplittingShortenRun(s: string, pieces: seq<string>, gaps: seq<string>)
    requires WsSplitting(s, pieces, gaps) && pieces[0] == [] && gaps != [] && |gaps[0]| > 1
    ensures |s| > 1 && s[0] == gaps[0][0] && s[1] == gaps[0][1] && IsSpace(s[0]) && IsSpace(s[1])
    ensures WsSplitting(s[1..], pieces, [gaps[0][1..]] + gaps[1..])
  {
    var g := gaps[0];
    var shorter := [g[1..]] + gaps[1..];
    assert s == g + Interleave(pieces[1..], gaps[1..]);
    assert Interleave(pieces, shorter) == s[1..] by {
      assert shorter[1..] == gaps[1..];
    }
    assert SpaceRuns(shorter) by {
      assert AllSpace(g[1..]) by {
        assert forall j :: 0 <= j < |g| - 1 ==> g[1..][j] == g[j + 1];
      }
      forall k | 0 < k < |shorter| ensures shorter[k] == gaps[k] { }
    }
  }

  /** Taking the first character off a splitting that starts with a run of
      one whitespace character. */
  lemma SplittingDropRun(s: string, pieces: seq<string>, gaps: seq<string>)
    requires WsSplitting(s, pieces, gaps) && pieces[0] == [] && gaps != [] && |gaps[0]| == 1
    ensures s != [] && s[0] == gaps[0][0] && IsSpace(s[0])
    ensures WsSplitting(s[1..], pieces[1..], gaps[1..])
    ensures |s| == 1 || !IsSpace(s[1])
  {
    var rest, restGaps := pieces[1..], gaps[1..];
    assert s == gaps[0] + Interleave(rest, restGaps);
    assert s[1..] == Interleave(rest, restGaps);
    assert SpaceRuns(restGaps) by {
      forall k | 0 <= k < |restGaps| ensures restGaps[k] == gaps[k + 1] { }
    }
    assert SpaceFreePieces(rest) by {
      forall k | 0 <= k < |rest| ensures rest[k] == pieces[k + 1] { }
    }
    if |s| > 1 {
      SplittingFirst(s[1..], rest, restGaps);
    }
  }

  /** Any way of writing `s` as whitespace-free pieces separated by
      non-empty whitespace runs is the one `split(/\s+/)` produces. */
  lemma {:induction false} SplittingIsSplitWs(s: string, pieces: seq<string>, gaps: seq<string>)
    requires WsSplitting(s, pieces, gaps)
    ensures pieces == SplitWs(s) && gaps == WsGaps(s)
    decreases |s|
  {
    if pieces[0] != [] {
      SplittingDropLetter(s, pieces, gaps);
      var tail := [pieces[0][1..]] + pieces[1..];
      SplittingIsSplitWs(s[1..], tail, gaps);
      assert [pieces[0][0]] + pieces[0][1..] == pieces[0];
      assert pieces == [[s[0]] + tail[0]] + tail[1..];
    } else if gaps == [] {
      assert s == [];
    } else if |gaps[0]| > 1 {
      SplittingShortenRun(s, pieces, gaps);
      var shorter := [gaps[0][1..]] + gaps[1..];
      SplittingIsSplitWs(s[1..], pieces, shorter);
      assert [gaps[0][0]] + gaps[0][1..] == gaps[0];
      assert gaps == [[s[0]] + shorter[0]] + shorter[1..];
    } else {
      SplittingDropRun(s, pieces, gaps);
      SplittingIsSplitWs(s[1..], pieces[1..], gaps[1..]);
      assert gaps[0] == [s[0]];
      assert pieces == [""] + pieces[1..] && gaps == [[s[0]]] + gaps[1..];
    }
  }

  // ---------------------------------------------------------------------
  // trim
  // ---------------------------------------------------------------------

  /** `s` without its leading whitespace. */
  function TrimStart(s: string): (r: string)
    ensures |r| <= |s| && r == s[|s| - |r|..]
    ensures r == [] || !IsSpace(r[0])
    ensures forall i :: 0 <= i < |s| - |r| ==> IsSpace(s[i])
  {
    if s != [] && IsSpace(s[0]) then TrimStart(s[1..]) else s
  }

  /** `s` without its trailing whitespace. */
  function TrimEnd(s: string): (r: string)
    ensures |r| <= |s| && r == s[..|r|]
    ensures r == [] || !IsSpace(r[|r| - 1])
    ensures forall i :: |r| <= i < |s| ==> IsSpace(s[i])
  {
    if s != [] && IsSpace(s[|s| - 1]) then TrimEnd(s[..|s| - 1]) else s
  }

  /** `s.trim()`: the middle part of `s` that neither starts nor ends with
      whitespace, everything cut off on either side being whitespace. */
  function Trim(s: string): (r: string)
    ensures exists i ::
      (OccursAt(s, r, i) &&
       (forall j :: 0 <= j < i ==> IsSpace(s[j])) &&
       (forall j :: i + |r| <= j < |s| ==> IsSpace(s[j])))
    ensures r == [] || (!IsSpace(r[0]) && !IsSpace(r[|r| - 1]))
    ensures r == [] <==> forall i :: 0 <= i < |s| ==> IsSpace(s[i])
  {
    var front := TrimStart(s);
    var r := TrimEnd(front);
    TrimCut(s, front, r);
    r
  }

  /** Cutting whitespace off the front and then off the back leaves a middle
      part flanked by whitespace. */
  lemma TrimCut(s: string, front: string, r: string)
    requires |front| <= |s| && front == s[|s| - |front|..]
    requires front == [] || !IsSpace(front[0])
    requires forall i :: 0 <= i < |s| - |front| ==> IsSpace(s[i])
    requires |r| <= |front| && r == front[..|r|]
    requires r == [] || !IsSpace(r[|r| - 1])
    requires forall i :: |r| <= i < |front| ==> IsSpace(front[i])
    ensures exists i ::
      (OccursAt(s, r, i) &&
       (forall j :: 0 <= j < i ==> IsSpace(s[j])) &&
       (forall j :: i + |r| <= j < |s| ==> IsSpace(s[j])))
    ensures r == [] || (!IsSpace(r[0]) && !IsSpace(r[|r| - 1]))
    ensures r == [] <==> forall i :: 0 <= i < |s| ==> IsSpace(s[i])
  {
    var start := |s| - |front|;
    assert r == s[start..start + |r|];
    assert OccursAt(s, r, start);
    assert forall j :: start + |r| <= j < |s| ==> s[j] == front[j - start];
    if r != [] {
      assert r[0] == front[0] == s[start];
    }
  }
}
