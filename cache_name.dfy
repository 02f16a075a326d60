/** The cache file names of `get_paired_data`: the data file's name without its
    last `.`-separated segment, `'.'.join(filename.split('.')[:-1])`, followed
    by `_X.pkl` and `_y.pkl`. */
module CacheName {
  import opened Wrappers

  /** Python's `s.split('.')`: the maximal dot-free segments, one more than
      there are dots. */
  function SplitDots(s: string): (parts: seq<string>)
    ensures |parts| >= 1
    ensures forall i :: 0 <= i < |parts| ==> '.' !in parts[i]
    decreases |s|
  {
    if s == [] then [""]
    else if s[0] == '.' then [""] + SplitDots(s[1..])
    else
      var rest := SplitDots(s[1..]);
      [[s[0]] + rest[0]] + rest[1..]
  }

  /** Python's `'.'.join(parts)`. */
  function JoinDots(parts: seq<string>): string
  {
    if parts == [] then ""
    else if |parts| == 1 then parts[0]
    else parts[0] + "." + JoinDots(parts[1..])
  }

  /** The file name without its last `.`-separated segment. */
  function CacheBaseName(filename: string): string
  {
    var parts := SplitDots(filename);
    JoinDots(parts[..|parts| - 1])
  }

  /** The names of the two pickles the generated pairs and labels go to. */
  function CacheFileNames(filename: string): (names: (string, string))
    ensures names.0 != names.1
  {
    var base := CacheBaseName(filename);
    assert (base + "_X.pkl")[|base| + 1] == 'X';
    (base + "_X.pkl", base + "_y.pkl")
  }

  /** Reference definition: the position of the last dot, if any. */
  function LastDot(s: string): (r: Option<nat>)
    ensures r.Some? ==> r.value < |s| && s[r.value] == '.'
    ensures r.Some? ==> forall j :: r.value < j < |s| ==> s[j] != '.'
    ensures r.None? ==> '.' !in s
    decreases |s|
  {
    if s == [] then None
    else if s[|s| - 1] == '.' then Some(|s| - 1)
    else LastDot(s[..|s| - 1])
  }

  /** Joining the segments of a split gives the string back. */
  lemma {:induction false} JoinSplit(s: string)
    ensures JoinDots(SplitDots(s)) == s
    decreases |s|
  {
    if s != [] {
      JoinSplit(s[1..]);
      var rest := SplitDots(s[1..]);
      if s[0] == '.' {
        assert SplitDots(s)[1..] == rest;
      } else if |rest| > 1 {
        assert SplitDots(s)[1..] == rest[1..];
      }
    }
  }

  /** A string without dots splits into itself. */
  lemma {:induction false} SplitNoDot(s: string)
    requires '.' !in s
    ensures SplitDots(s) == [s]
    decreases |s|
  {
    if s != [] {
      assert s[0] != '.';
      assert '.' !in s[1..];
      SplitNoDot(s[1..]);
      assert [s[0]] + s[1..] == s;
    }
  }

  /** Splitting around one dot splits each side on its own. */
  lemma {:induction false} SplitAroundDot(a: string, b: string)
    ensures SplitDots(a + "." + b) == SplitDots(a) + SplitDots(b)
    decreases |a|
  {
    if a == [] {
      assert a + "." + b == "." + b;
      assert ("." + b)[1..] == b;
    } else {
      assert (a + "." + b)[0] == a[0];
      assert (a + "." + b)[1..] == a[1..] + "." + b;
      SplitAroundDot(a[1..], b);
    }
  }

  /** The base name drops exactly the last `.`-separated segment together with
      its dot, and is empty when the name has no dot. */
  lemma CacheBaseNameDropsLastSegment(filename: string)
    ensures CacheBaseName(filename) ==
      match LastDot(filename)
      case None => ""
      case Some(i) => filename[..i]
  {
    match LastDot(filename)
    case None =>
      SplitNoDot(filename);
    case Some(i) =>
      var before, after := filename[..i], filename[i + 1..];
      assert filename == before + "." + after;
      assert '.' !in after by {
        forall j | 0 <= j < |after| ensures after[j] != '.' {
          assert after[j] == filename[i + 1 + j];
        }
      }
      SplitAroundDot(before, after);
      SplitNoDot(after);
      var parts := SplitDots(filename);
      assert parts[..|parts| - 1] == SplitDots(before);
      JoinSplit(before);
  }
}
