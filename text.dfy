/** The string operations behind the keyword search: Python's `str.split()`
    with no argument, and PostgreSQL's `ILIKE '%word%'` (a case-insensitive
    substring test). Case folding covers the ASCII letters only. */
module Text {

  /** The ASCII characters `str.split()` and `str.strip()` treat as
      separators: tab, line feed, vertical tab, form feed, carriage return,
      the four information separators 0x1C-0x1F, and space. */
  predicate IsSpace(c: char) {
    c as int in {9, 10, 11, 12, 13, 28, 29, 30, 31, 32}
  }

  /** The length of the run of non-separators at the start of `s`. */
  function WordLength(s: string): (n: nat)
    ensures n <= |s|
    ensures forall i :: 0 <= i < n ==> !IsSpace(s[i])
    ensures n == |s| || IsSpace(s[n])
  {
    if s == [] || IsSpace(s[0]) then 0 else 1 + WordLength(s[1..])
  }

  /** `s.split()`: the maximal runs of non-separators, left to right. */
  function Words(s: string): (ws: seq<string>)
    ensures |ws| <= |s|
    ensures forall k :: 0 <= k < |ws| ==> IsWord(ws[k])
    decreases |s|
  {
    if s == [] then []
    else if IsSpace(s[0]) then Words(s[1..])
    else
      var n := WordLength(s);
      [s[..n]] + Words(s[n..])
  }

  /** `s` with every separator removed. */
  function NonSpace(s: string): string {
    if s == [] then []
    else (if IsSpace(s[0]) then [] else [s[0]]) + NonSpace(s[1..])
  }

  function Concat(ws: seq<string>): string {
    if ws == [] then [] else ws[0] + Concat(ws[1..])
  }

  /** A piece `str.split()` can return: non-empty, without separators. */
  predicate IsWord(w: string) {
    w != [] && forall i :: 0 <= i < |w| ==> !IsSpace(w[i])
  }

  lemma {:induction false} NonSpaceAppend(a: string, b: string)
    ensures NonSpace(a + b) == NonSpace(a) + NonSpace(b)
  {
    if a != [] {
      assert (a + b)[1..] == a[1..] + b;
      NonSpaceAppend(a[1..], b);
    } else {
      assert a + b == b;
    }
  }

  lemma {:induction false} NonSpaceOfWord(w: string)
    requires forall i :: 0 <= i < |w| ==> !IsSpace(w[i])
    ensures NonSpace(w) == w
  {
    if w != [] {
      NonSpaceOfWord(w[1..]);
    }
  }

  /** `str.split()` splits exactly at the separators: every piece is a
      non-empty run without separators, and together, in order, the pieces
      spell the input with its separators removed. */
  lemma {:induction false} WordsSplitAtSpaces(s: string)
    ensures forall k :: 0 <= k < |Words(s)| ==> IsWord(Words(s)[k])
    ensures Concat(Words(s)) == NonSpace(s)
    decreases |s|
  {
    if s == [] {
    } else if IsSpace(s[0]) {
      WordsSplitAtSpaces(s[1..]);
    } else {
      var n := WordLength(s);
      WordsSplitAtSpaces(s[n..]);
      assert s == s[..n] + s[n..];
      NonSpaceAppend(s[..n], s[n..]);
      NonSpaceOfWord(s[..n]);
      var ws := Words(s);
      assert ws == [s[..n]] + Words(s[n..]);
      assert ws[1..] == Words(s[n..]);
    }
  }

  /** `w` is the whole run of non-separators of `s` that starts at `i`:
      a separator (or an end of `s`) lies on either side. */
  predicate IsRunAt(w: string, s: string, i: nat) {
    && i + |w| <= |s| && s[i..i + |w|] == w
    && (i == 0 || IsSpace(s[i - 1]))
    && (i + |w| == |s| || IsSpace(s[i + |w|]))
  }

  /** `w` is a maximal run of non-separators somewhere in `s`. */
  predicate IsRun(w: string, s: string) {
    exists i: nat :: i <= |s| && IsRunAt(w, s, i)
  }

  /** A run of a suffix `s[d..]` is a run of `s`, unless it starts the
      suffix right after a non-separator. */
  lemma RunInSuffix(w: string, s: string, d: nat, i: nat)
    requires d <= |s| && IsRunAt(w, s[d..], i)
    requires i > 0 || d == 0 || IsSpace(s[d - 1])
    ensures IsRunAt(w, s, i + d)
  {
    assert s[d..][i..i + |w|] == s[i + d..i + d + |w|];
    if i > 0 {
      assert s[d..][i - 1] == s[i + d - 1];
    }
    if i + |w| < |s[d..]| {
      assert s[d..][i + |w|] == s[i + d + |w|];
    }
  }

  /** The words `ws` lie in `s` as whole runs at the positions `ps`, left
      to right. */
  predicate RunsAt(ws: seq<string>, s: string, ps: seq<nat>) {
    && |ps| == |ws|
    && (forall k :: 0 <= k < |ps| ==> IsRunAt(ws[k], s, ps[k]))
    && (forall k :: 0 < k < |ps| ==> ps[k - 1] < ps[k])
  }

  function Shift(ps: seq<nat>, d: nat): (r: seq<nat>)
    ensures |r| == |ps| && forall k :: 0 <= k < |ps| ==> r[k] == ps[k] + d
  {
    seq(|ps|, k requires 0 <= k < |ps| => ps[k] + d)
  }

  /** Where each word of `Words(s)` starts in `s`. */
  ghost function WordStarts(s: string): seq<nat>
    decreases |s|
  {
    if s == [] then []
    else if IsSpace(s[0]) then Shift(WordStarts(s[1..]), 1)
    else
      var n := WordLength(s);
      [0] + Shift(WordStarts(s[n..]), n)
  }

  /** Words found as runs of a suffix `s[d..]` are runs of `s`, shifted by
      `d`, when the suffix starts after a separator or with one. */
  lemma ShiftRuns(ws: seq<string>, s: string, d: nat, ps: seq<nat>)
    requires d <= |s|
    requires d == 0 || IsSpace(s[d - 1]) || d == |s| || IsSpace(s[d])
    requires forall k :: 0 <= k < |ws| ==> IsWord(ws[k])
    requires RunsAt(ws, s[d..], ps)
    ensures RunsAt(ws, s, Shift(ps, d))
  {
    var qs := Shift(ps, d);
    forall k | 0 <= k < |ws| ensures IsRunAt(ws[k], s, qs[k]) {
      if ps[k] == 0 && d > 0 {
        assert IsWord(ws[k]) && s[d..][0] == ws[k][0];
      }
      RunInSuffix(ws[k], s, d, ps[k]);
    }
  }

  /** The words of `s` are the runs of `s` that start at `WordStarts(s)`. */
  lemma {:induction false} WordsAtStarts(s: string)
    ensures RunsAt(Words(s), s, WordStarts(s))
    decreases |s|
  {
    if s == [] {
    } else if IsSpace(s[0]) {
      WordsAtStarts(s[1..]);
      ShiftRuns(Words(s[1..]), s, 1, WordStarts(s[1..]));
    } else {
      var n := WordLength(s);
      WordsAtStarts(s[n..]);
      ShiftRuns(Words(s[n..]), s, n, WordStarts(s[n..]));
      var later, qs := Words(s[n..]), Shift(WordStarts(s[n..]), n);
      assert Words(s) == [s[..n]] + later;
      assert IsRunAt(s[..n], s, 0);
      ConsRuns(s[..n], later, s, qs);
    }
  }

  /** A run at the very start goes in front of runs that start later. */
  lemma ConsRuns(w: string, ws: seq<string>, s: string, qs: seq<nat>)
    requires IsRunAt(w, s, 0)
    requires RunsAt(ws, s, qs)
    requires forall k :: 0 <= k < |qs| ==> qs[k] > 0
    ensures RunsAt([w] + ws, s, [0] + qs)
  {
    var vs, ps := [w] + ws, [0] + qs;
    forall k | 1 <= k < |vs| ensures IsRunAt(vs[k], s, ps[k]) {
      assert vs[k] == ws[k - 1] && ps[k] == qs[k - 1];
    }
    forall k | 0 < k < |ps| ensures ps[k - 1] < ps[k] {
      assert ps[k] == qs[k - 1];
    }
  }

  /** `str.split()` cuts only at separators and keeps the input's order:
      every piece is a maximal run of non-separators of the input, bounded
      by separators or its ends, and the pieces start at strictly
      increasing positions. */
  lemma WordsAreMaximalRuns(s: string)
    ensures forall k :: 0 <= k < |Words(s)| ==> IsRun(Words(s)[k], s)
    ensures exists ps: seq<nat> :: RunsAt(Words(s), s, ps)
  {
    WordsAtStarts(s);
    var ps := WordStarts(s);
    forall k | 0 <= k < |Words(s)| ensures IsRun(Words(s)[k], s) {
      assert IsRunAt(Words(s)[k], s, ps[k]);
    }
  }

  /** A string splits into no words exactly when it is blank. */
  lemma {:induction false} NoWordsIffBlank(s: string)
    ensures Words(s) == [] <==> forall i :: 0 <= i < |s| ==> IsSpace(s[i])
    decreases |s|
  {
    if s != [] {
      NoWordsIffBlank(s[1..]);
      if IsSpace(s[0]) {
        assert forall i :: 1 <= i < |s| ==> s[i] == s[1..][i - 1];
      }
    }
  }

  /** ASCII case folding, as PostgreSQL's ILIKE applies it to both sides. */
  function Lower(c: char): (d: char)
    ensures 'A' <= c <= 'Z' ==> 'a' <= d <= 'z' && d as int - c as int == 32
    ensures !('A' <= c <= 'Z') ==> d == c
  {
    if 'A' <= c <= 'Z' then (c as int + 32) as char else c
  }

  function LowerString(s: string): (r: string)
    ensures |r| == |s| && forall i :: 0 <= i < |s| ==> r[i] == Lower(s[i])
  {
    seq(|s|, i requires 0 <= i < |s| => Lower(s[i]))
  }

  /** Folding twice folds no further. */
  lemma LowerStringIdempotent(s: string)
    ensures LowerString(LowerString(s)) == LowerString(s)
  {
    var once := LowerString(s);
    forall i | 0 <= i < |s| ensures LowerString(once)[i] == once[i] {
      assert 'a' <= once[i] <= 'z' || !('A' <= once[i] <= 'Z');
    }
  }

  /** `p` occurs in `t` starting at position `i`. */
  predicate OccursAt(p: string, t: string, i: nat) {
    i + |p| <= |t| && t[i..i + |p|] == p
  }

  predicate IsSubstring(p: string, t: string) {
    exists i: nat :: i <= |t| && OccursAt(p, t, i)
  }

  /** `name ILIKE '%word%'` for a word without the wildcards `%` and `_`
      and the escape `\`: a word longer than the name never matches, the
      empty word matches every name. */
  predicate ContainsCaseless(name: string, word: string)
    ensures ContainsCaseless(name, word) ==> |word| <= |name|
    ensures word == [] ==> ContainsCaseless(name, word)
  {
    assert word == [] ==> OccursAt(LowerString(word), LowerString(name), 0);
    IsSubstring(LowerString(word), LowerString(name))
  }

  /** `word` matches `name` at `i`, letter by letter, ignoring case. */
  predicate MatchesCaselessAt(name: string, word: string, i: nat) {
    i + |word| <= |name| && forall j :: 0 <= j < |word| ==> Lower(name[i + j]) == Lower(word[j])
  }

  /** ILIKE ignores case: the word matches exactly when, at some position,
      each of its letters equals the name's letter up to case. */
  lemma ContainsCaselessIffMatchAt(name: string, word: string)
    ensures ContainsCaseless(name, word) <==> exists i: nat :: MatchesCaselessAt(name, word, i)
  {
    var ln, lw := LowerString(name), LowerString(word);
    if ContainsCaseless(name, word) {
      var i: nat :| i <= |ln| && OccursAt(lw, ln, i);
      forall j | 0 <= j < |word| ensures Lower(name[i + j]) == Lower(word[j]) {
        assert ln[i..i + |lw|][j] == ln[i + j];
      }
      assert MatchesCaselessAt(name, word, i);
    }
    if i: nat :| MatchesCaselessAt(name, word, i) {
      assert ln[i..i + |lw|] == lw;
      assert OccursAt(lw, ln, i);
    }
  }

  /** Changing the case of either side never changes the answer. */
  lemma ContainsCaselessIgnoresCase(n1: string, w1: string, n2: string, w2: string)
    requires LowerString(n1) == LowerString(n2) && LowerString(w1) == LowerString(w2)
    ensures ContainsCaseless(n1, w1) <==> ContainsCaseless(n2, w2)
  {
  }

  /** In particular, folding the name or the word first changes nothing. */
  lemma ContainsCaselessOfFolded(name: string, word: string)
    ensures ContainsCaseless(LowerString(name), LowerString(word)) <==> ContainsCaseless(name, word)
  {
    LowerStringIdempotent(name);
    LowerStringIdempotent(word);
  }

  /** Example: "PYTHON" is found in "Senior python developer". */
  lemma CaselessExample()
    ensures ContainsCaseless("Senior python developer", "PYTHON")
  {
    var t := LowerString("Senior python developer");
    assert t[7..13] == LowerString("PYTHON");
    assert OccursAt(LowerString("PYTHON"), t, 7);
  }
}
