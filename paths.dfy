/** String handling around the results directory: `os.path.join` (POSIX
    rules), the predictions file name `{key}_predictions.csv`, and recovering
    the key with `str.replace`. */
module Paths {

  const Slash: char := '/'
  const PredictionSuffix: string := "_predictions.csv"

  predicate StartsWith(s: string, prefix: string) {
    |prefix| <= |s| && s[..|prefix|] == prefix
  }

  /** `str.endswith`. */
  predicate EndsWith(s: string, suffix: string) {
    |suffix| <= |s| && s[|s| - |suffix|..] == suffix
  }

  ghost predicate OccursAt(s: string, pat: string, i: int) {
    0 <= i && i + |pat| <= |s| && s[i..i + |pat|] == pat
  }

  ghost predicate Contains(s: string, pat: string) {
    exists i :: OccursAt(s, pat, i)
  }

  // ---------------------------------------------------------------------
  // os.path.join

  /** One step of `posixpath.join`: an absolute component discards what came
      before; otherwise a separator is inserted unless the path is empty or
      already ends with one. */
  function JoinTwo(path: string, b: string): string {
    if StartsWith(b, [Slash]) then b
    else if path == [] || EndsWith(path, [Slash]) then path + b
    else path + [Slash] + b
  }

  /** `os.path.join(parts[0], parts[1], ...)`. */
  function JoinPath(parts: seq<string>): string
    requires |parts| > 0
  {
    if |parts| == 1 then parts[0]
    else JoinTwo(JoinPath(parts[..|parts| - 1]), parts[|parts| - 1])
  }

  /** A path component that is not empty and holds no separator. */
  predicate PlainComponent(p: string) {
    |p| > 0 && Slash !in p
  }

  /** The parts glued with single separators. */
  function Intercalate(parts: seq<string>): string
    requires |parts| > 0
  {
    if |parts| == 1 then parts[0]
    else Intercalate(parts[..|parts| - 1]) + [Slash] + parts[|parts| - 1]
  }

  /** `str.split(sep)`. */
  function Split(s: string, sep: char): (r: seq<string>)
    ensures |r| > 0
  {
    if s == [] then [[]]
    else
      var rest := Split(s[1..], sep);
      if s[0] == sep then [[]] + rest else [[s[0]] + rest[0]] + rest[1..]
  }

  lemma {:induction false} JoinPlainIsIntercalate(parts: seq<string>)
    requires |parts| > 0 && forall i :: 0 <= i < |parts| ==> PlainComponent(parts[i])
    ensures JoinPath(parts) == Intercalate(parts)
    ensures |JoinPath(parts)| > 0 && JoinPath(parts)[|JoinPath(parts)| - 1] != Slash
  {
    var n := |parts|;
    var last := parts[n - 1];
    assert last[|last| - 1] in last;
    if n > 1 {
      var init := parts[..n - 1];
      JoinPlainIsIntercalate(init);
      assert !StartsWith(last, [Slash]) by {
        assert last[0] in last;
      }
    }
  }

  lemma {:induction false} SplitAtSeparator(x: string, y: string, sep: char)
    ensures Split(x + [sep] + y, sep) == Split(x, sep) + Split(y, sep)
  {
    if x == [] {
      assert [sep] + y == x + [sep] + y;
      assert ([sep] + y)[1..] == y;
    } else {
      assert (x + [sep] + y)[1..] == x[1..] + [sep] + y;
      SplitAtSeparator(x[1..], y, sep);
    }
  }

  lemma {:induction false} SplitWithoutSeparator(x: string, sep: char)
    requires sep !in x
    ensures Split(x, sep) == [x]
  {
    if x != [] {
      assert sep !in x[1..] by {
        assert forall c :: c in x[1..] ==> c in x;
      }
      SplitWithoutSeparator(x[1..], sep);
      assert x[0] in x;
      assert [x[0]] + x[1..] == x;
    }
  }

  lemma {:induction false} SplitIntercalate(parts: seq<string>)
    requires |parts| > 0 && forall i :: 0 <= i < |parts| ==> Slash !in parts[i]
    ensures Split(Intercalate(parts), Slash) == parts
  {
    var n := |parts|;
    SplitWithoutSeparator(parts[n - 1], Slash);
    if n > 1 {
      SplitIntercalate(parts[..n - 1]);
      SplitAtSeparator(Intercalate(parts[..n - 1]), parts[n - 1], Slash);
      assert parts == parts[..n - 1] + [parts[n - 1]];
    }
  }

  /** Joining plain components keeps every one of them, in order: splitting
      the joined path on the separator gives the components back. */
  lemma JoinedComponentsRecoverable(parts: seq<string>)
    requires |parts| > 0 && forall i :: 0 <= i < |parts| ==> PlainComponent(parts[i])
    ensures Split(JoinPath(parts), Slash) == parts
  {
    JoinPlainIsIntercalate(parts);
    SplitIntercalate(parts);
  }

  /** Joining one more component is one more `JoinTwo` step. */
  lemma JoinPathSnoc(parts: seq<string>, p: string)
    requires |parts| > 0
    ensures JoinPath(parts + [p]) == JoinTwo(JoinPath(parts), p)
  {
    assert (parts + [p])[..|parts|] == parts;
  }

  /** An absolute component discards every component before it. */
  lemma {:induction false} AbsoluteComponentResets(before: seq<string>, b: string, after: seq<string>)
    requires StartsWith(b, [Slash])
    ensures JoinPath(before + [b] + after) == JoinPath([b] + after)
    decreases |after|
  {
    if after == [] {
      assert [b] + after == [b];
      if before != [] {
        assert before + [b] + after == before + [b];
        JoinPathSnoc(before, b);
      } else {
        assert before + [b] + after == [b];
      }
    } else {
      var n := |after|;
      var init, last := after[..n - 1], after[n - 1];
      AbsoluteComponentResets(before, b, init);
      assert before + [b] + after == (before + [b] + init) + [last];
      assert [b] + after == ([b] + init) + [last];
      JoinPathSnoc(before + [b] + init, last);
      JoinPathSnoc([b] + init, last);
    }
  }

  // ---------------------------------------------------------------------
  // Predictions file names

  /** `str.replace(pat, "")`: every occurrence, found left to right without
      overlap, is deleted. */
  function RemoveAll(s: string, pat: string): (r: string)
    requires |pat| > 0
    ensures |r| <= |s|
    decreases |s|
  {
    if StartsWith(s, pat) then RemoveAll(s[|pat|..], pat)
    else if s == [] then []
    else [s[0]] + RemoveAll(s[1..], pat)
  }

  /** The last character of `pat` occurs nowhere else in it, so two
      occurrences of `pat` never overlap. */
  predicate LastCharUnique(pat: string) {
    |pat| > 0 && forall i :: 0 <= i < |pat| - 1 ==> pat[i] != pat[|pat| - 1]
  }

  lemma {:induction false} RemoveAllWithoutOccurrence(s: string, pat: string)
    requires |pat| > 0 && !Contains(s, pat)
    ensures RemoveAll(s, pat) == s
    decreases |s|
  {
    assert !OccursAt(s, pat, 0);
    if s != [] {
      assert !Contains(s[1..], pat) by {
        assert forall i :: OccursAt(s[1..], pat, i) ==> OccursAt(s, pat, i + 1);
      }
      RemoveAllWithoutOccurrence(s[1..], pat);
    }
  }

  /** Inductive step of `RemoveAllSplits` when no occurrence starts at the
      front: the first character is kept on both sides. */
  lemma SplitsKeepStep(x: string, w: string, pat: string)
    requires |pat| > 0 && x != [] && !StartsWith(x + w, pat) && !StartsWith(x, pat)
    requires RemoveAll(x[1..] + w, pat) == RemoveAll(x[1..], pat) + RemoveAll(w, pat)
    ensures RemoveAll(x + w, pat) == RemoveAll(x, pat) + RemoveAll(w, pat)
  {
    RemoveAllKeepsHead(x + w, pat);
    RemoveAllKeepsHead(x, pat);
    assert (x + w)[1..] == x[1..] + w;
    ConsAssociates(x[0], RemoveAll(x[1..], pat), RemoveAll(w, pat));
  }

  /** `RemoveAll` keeps the first character when no occurrence starts there. */
  lemma RemoveAllKeepsHead(s: string, pat: string)
    requires |pat| > 0 && s != [] && !StartsWith(s, pat)
    ensures RemoveAll(s, pat) == [s[0]] + RemoveAll(s[1..], pat)
  {
  }

  lemma ConsAssociates(c: char, a: string, b: string)
    ensures [c] + (a + b) == ([c] + a) + b
  {
  }

  /** Inductive step of `RemoveAllSplits` when an occurrence starts at the
      front of `x`: it is deleted on both sides. */
  lemma SplitsDropStep(x: string, w: string, pat: string)
    requires |pat| > 0 && StartsWith(x, pat)
    requires RemoveAll(x[|pat|..] + w, pat) == RemoveAll(x[|pat|..], pat) + RemoveAll(w, pat)
    ensures RemoveAll(x + w, pat) == RemoveAll(x, pat) + RemoveAll(w, pat)
  {
    var n := |pat|;
    assert StartsWith(x + w, pat) by {
      assert (x + w)[..n] == x[..n];
    }
    calc {
      RemoveAll(x + w, pat);
      { RemoveAllDropsHead(x + w, pat); }
      RemoveAll((x + w)[n..], pat);
      { assert (x + w)[n..] == x[n..] + w; }
      RemoveAll(x[n..] + w, pat);
      RemoveAll(x[n..], pat) + RemoveAll(w, pat);
      { RemoveAllDropsHead(x, pat); }
      RemoveAll(x, pat) + RemoveAll(w, pat);
    }
  }

  /** `RemoveAll` deletes an occurrence found at the front. */
  lemma RemoveAllDropsHead(s: string, pat: string)
    requires |pat| > 0 && StartsWith(s, pat)
    ensures RemoveAll(s, pat) == RemoveAll(s[|pat|..], pat)
  {
  }

  /** When `pat` has no self-overlap, deleting its occurrences from `x + w`,
      where `w` starts with `pat`, treats `x` and `w` separately: no
      occurrence straddles the boundary. */
  lemma {:induction false} RemoveAllSplits(x: string, w: string, pat: string)
    requires LastCharUnique(pat) && StartsWith(w, pat)
    ensures RemoveAll(x + w, pat) == RemoveAll(x, pat) + RemoveAll(w, pat)
    decreases |x|
  {
    var n := |pat|;
    if x == [] {
      assert x + w == w;
    } else if StartsWith(x, pat) {
      RemoveAllSplits(x[n..], w, pat);
      SplitsDropStep(x, w, pat);
    } else {
      assert !StartsWith(x + w, pat) by {
        if |x| < n {
          StraddleMissesLastChar(x, w, pat);
        } else {
          assert (x + w)[..n] == x[..n];
        }
      }
      RemoveAllSplits(x[1..], w, pat);
      SplitsKeepStep(x, w, pat);
    }
  }

  /** An occurrence of `pat` that started inside a short nonempty `x` would
      end inside `w` at a position where `w`, itself starting with `pat`,
      holds a character other than the last one of `pat`. */
  lemma StraddleMissesLastChar(x: string, w: string, pat: string)
    requires LastCharUnique(pat) && StartsWith(w, pat)
    requires 0 < |x| < |pat|
    ensures !StartsWith(x + w, pat)
  {
    var n := |pat|;
    var k := n - 1 - |x|;
    assert w[k] == pat[k] by {
      assert w[..n][k] == w[k];
    }
    assert (x + w)[..n][n - 1] == w[k];
    assert pat[k] != pat[n - 1];
  }

  lemma SuffixHasUniqueLastChar()
    ensures LastCharUnique(PredictionSuffix)
  {
    var s := PredictionSuffix;
    assert s[|s| - 1] == 'v';
    assert forall i :: 0 <= i < |s| - 1 ==> s[i] != 'v';
  }

  /** `f"{key}_predictions.csv"`. */
  function PredictionFileName(key: string): (name: string)
    ensures EndsWith(name, PredictionSuffix)
  {
    assert (key + PredictionSuffix)[|key|..] == PredictionSuffix;
    key + PredictionSuffix
  }

  /** Distinct keys are written to distinct files. */
  lemma PredictionFileNameInjective(k1: string, k2: string)
    ensures PredictionFileName(k1) == PredictionFileName(k2) ==> k1 == k2
  {
    assert k1 == PredictionFileName(k1)[..|k1|];
    assert k2 == PredictionFileName(k2)[..|k2|];
  }

  /** `filename.replace("_predictions.csv", "")`. */
  function KeyOfFileName(name: string): string {
    RemoveAll(name, PredictionSuffix)
  }

  /** Loading a saved key deletes the suffix everywhere in it: the key comes
      back with its own inner occurrences of the suffix removed too. */
  lemma KeyOfSavedName(key: string)
    ensures KeyOfFileName(PredictionFileName(key)) == RemoveAll(key, PredictionSuffix)
  {
    SuffixHasUniqueLastChar();
    RemoveAllSplits(key, PredictionSuffix, PredictionSuffix);
    assert PredictionSuffix[|PredictionSuffix|..] == [];
  }

  /** A key survives the save/load naming round trip exactly when it does not
      itself contain the suffix. */
  lemma KeyRoundTrip(key: string)
    ensures KeyOfFileName(PredictionFileName(key)) == key <==> !Contains(key, PredictionSuffix)
  {
    KeyOfSavedName(key);
    var pat := PredictionSuffix;
    if Contains(key, pat) {
      var i :| OccursAt(key, pat, i);
      SuffixHasUniqueLastChar();
      assert key == key[..i] + key[i..];
      RemoveAllSplits(key[..i], key[i..], pat);
      assert RemoveAll(key[i..], pat) == RemoveAll(key[i + |pat|..], pat) by {
        assert key[i..][|pat|..] == key[i + |pat|..];
      }
      assert |RemoveAll(key, pat)| < |key|;
    } else {
      RemoveAllWithoutOccurrence(key, pat);
    }
  }

  /** A key that itself ends with the suffix loses it: `a_predictions.csv`
      is saved as `a_predictions.csv_predictions.csv` and loaded back as
      `a`. */
  lemma SuffixInKeyIsLost(a: string)
    requires !Contains(a, PredictionSuffix)
    ensures KeyOfFileName(PredictionFileName(a + PredictionSuffix)) == a
  {
    var pat := PredictionSuffix;
    KeyOfSavedName(a + pat);
    SuffixHasUniqueLastChar();
    RemoveAllSplits(a, pat, pat);
    RemoveAllWithoutOccurrence(a, pat);
    assert pat[|pat|..] == [];
  }
}
